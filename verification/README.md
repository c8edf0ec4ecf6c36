# A verified model of the kloudy agent's data path

The agent samples kernel counters, derives rates, folds them into clock-aligned windows, spools the windows to a
bounded directory and uploads them until the platform acknowledges them. This project models that path in Dafny,
from `Derive` to the shutdown of the loop, and proves what each part promises and what the whole keeps over every
run.

Where the Go code updates fields, the model has a class whose methods do the same (`Stat`, `Bucket`, `Aggregator`,
`Spool`, `Agent`) or a method with the same loop (`Delay`, `Apply`). Each method is proved against a function on
values, and the theorems are about those functions.

How the layers fit together:

- `Clock`, `Collect`, `Wrappers`: 64-bit and clock arithmetic, samples.
- `Derivation`, `Statistics`, `Windows`, `Aggregation`: rates, min/mean/max, the window in progress, the aggregator.
- `Grouping`, `Streams`, `StreamTheorems`: a stream of samples split declaratively into maximal runs; the
  aggregator computes exactly those; counters telescope; geometry and CPU shares of a window.
- `Rounding`, `Encoding`: the document a window travels as.
- `ByteOrder`, `FileNames`, `SpoolModel`, `Spooling`: file names and their order, the directory as a queue, its
  operations, crashes.
- `Backoffs`, `WireConfig`, `Ship`: retry delays, the schedule a reply may set, the ends of a request.
- `AgentModel`, `Agents`: the loop as a state machine with a ledger of everything that happened to a window.
- `Conservation`, `Accounts`, `AgentTheorems`, `Draining`, `Delivery`: conservation, backoff pacing, retention, the
  cap, the schedule, draining and first-in-first-out delivery, over every run.
- `Scenarios`, `Reordering`, `Resending`: the runs in which order is lost or a batch changes.

Modelling choices. Instants are nanoseconds since Go's zero time, durations 64-bit nanoseconds with wrap-around
written out, `float64` is `real`, the directory is a map from names to files that either hold a document or do not
decode. What the world contributes to a step is an input of the step: the clock, the random draw, how a request
ends, which files cannot be read, whether a write fails and how far it gets, the encoded size of a window. A run is
any sequence of sampling and upload ticks followed by a shutdown.

Statements that fail as first worded, and the exact condition proved instead:

- The busy share is the sum of its parts, as long as the 64-bit total did not overflow, exactly if no single state
  went backwards; the code checks the total alone (`CpuPartition`). The reported shares are percentages that fit
  inside busy exactly if the reported states together rose by no more than the total (`SharesInRangeIff`); two
  failing inputs are `DishonestCpuLeavesRange` and `PartExceedsBusy`.
- Name order is chronological only among starts from the epoch on and, at one start, while the earlier sequence
  number does not exceed the leading digits of the later (`NameOrder`, `SeqOrderKeptIff`; first failure in
  `MillionthNameOutOfOrder`; before the epoch the order is reversed, `BeforeEpochBackwards`).
- The doubling of the backoff follows its schedule only if it meets the cap before it overflows; a base of exactly
  2^62 already fails (`CeilingFollowsScheduleIff`). The first delay respects the cap only if the base does
  (`CeilingWithinCap`).
- A field of a reply is honoured to the second only if its product fits 64 bits (`HonouredIff`); a reply of
  36028797018963973 seconds is accepted as five (`WrappedReplyIsAccepted`).
- An add keeps its own new window only if that window and everything listed after it fit the cap, or it is listed
  last (`NewWindowSurvivesIff`). After a crash the queue is therefore a suffix of the old queue with the new window
  in it, not of the old queue alone (`CrashIsAtomic`).
- A restarted process replaces a queued window exactly if start and sequence number agree (`RestartReplacesIff`);
  the ledger has a class for it, and in ordinary runs it stays empty (`DeliveryIsFifo`).
- Delivery is first in, first out only while a change of width keeps starts in order, which it does exactly if the
  new width divides the old one (`WidthsInOrderIff`). For every width in force and every width a reply may name, all
  regular runs are first in, first out exactly if the second divides the first (`WidthChangeSafeIff`); the failing
  runs are `ReorderingRunBreaksFifo`. Two windows of one start are ordered as their numbers are listed, which can
  fail only beyond 999999 windows (`FewWindowsInOrder`).
- A backlog takes ceil(windows / batch) accepted requests, except exactly if one of the replies hands the window in
  progress over without loss and the backlog is a whole number of batches or that request was its last
  (`ExtraRequestIff`; an instance is `ExtraRequestNeeded`). It then takes one more (`DrainsWhateverTheReply`).
- A kept batch is sent again unchanged, in ordinary runs, exactly if the cap took no window since and none has come to
  fill the batch up (`RetryResends`; a run in which it changes is `BatchGrows`).

The comment in internal/spool/spool.go:82-85 calls names fixed-width; the format widens past 999999, and the model
follows the format.

## Model

| member | source | states |
|---|---|---|
| Clock.Wrap64 | internal/wire/wire.go:91 | the value left by 64-bit overflow: congruent modulo 2^64 and unchanged when it fits |
| Clock.Sub | internal/metrics/derive.go:65 | a difference of instants is positive exactly if the later one is later, exact unless it saturates |
| Clock.Truncate | internal/metrics/bucket.go:198 | the start of a window is a multiple of the width and the instant lies inside the window |
| Clock.TruncateMonotone | internal/metrics/bucket.go:198 | later instants never fall into earlier windows |
| Clock.UnixNanoCountsFromEpoch | internal/spool/spool.go:88 | nanoseconds are counted from the instant 719162 days after the zero time |
| Derivation.DerivableIff | internal/metrics/derive.go:64-106 | an interval is derivable exactly if time advanced within one boot, the CPU total advanced and no byte counter fell |
| Derivation.RateTimesInterval | internal/metrics/derive.go:92-103 | each rate times the length of its interval is exactly the rise of the raw counter |
| Derivation.RatesArePerSecond | internal/metrics/derive.go:91-106 | each of the four throughputs is the rise of the counter of its name in bytes per second |
| Derivation.DerivedGauges | internal/metrics/derive.go:117-142 | used memory and swap complete the available part to the total and never exceed it; the other gauges come from the later sample |
| Derivation.CpuPartition | internal/metrics/derive.go:77-115 | busy, iowait and idle sum to 100; busy is exactly its parts if and only if no state fell, as long as the 64-bit total did not overflow, and in general if and only if falls and overflow balance |
| Derivation.BusyNonNegativeIff | internal/metrics/derive.go:89-110 | the busy share is not negative exactly if idle and iowait together rose by no more than the total |
| Derivation.SharesInRangeIff | internal/metrics/derive.go:77-115 | every reported share is in [0, 100] and user, system and steal fit inside busy exactly if the six reported states together rose by no more than the total |
| Derivation.HonestCpuSharesInRange | internal/metrics/derive.go:77-115 | non-decreasing states without overflow of the total meet that condition |
| Derivation.DishonestCpuLeavesRange | internal/metrics/derive.go:77-110 | a derivable interval whose busy share is negative because idle fell |
| Derivation.PartExceedsBusy | internal/metrics/derive.go:77-115 | a derivable interval whose busy share is 100 and whose user share is 150 because irq fell |
| Statistics.FoldedIsSummary | internal/metrics/bucket.go:40-50 | adding a reading to the summary of some readings gives the summary of all: exact mean, least and greatest value, count |
| Statistics.MeanBetweenExtremes | internal/metrics/bucket.go:40-50 | the mean lies between min and max |
| Statistics.SummaryUnique | internal/metrics/bucket.go:17-50 | a statistic is determined by the readings it was made from |
| Statistics.Stat.Add | internal/metrics/bucket.go:40-50 | the accumulator updated in place is the summary with one more reading |
| Windows.WithReadingPerMetric | internal/metrics/bucket.go:119-136 | each of the twelve statistics folds in its own reading and no other |
| Windows.Bucket.Add | internal/metrics/bucket.go:119-149 | the window updated in place: twelve statistics, totals, file systems and closing counters |
| Aggregation.Aggregator.Add | internal/metrics/bucket.go:182-212 | the new state of the aggregator and the window a sample completes |
| Aggregation.Aggregator.AddToWindow | internal/metrics/bucket.go:205-209 | a reading opens a window if there is none and is folded into it |
| Aggregation.Aggregator.Flush | internal/metrics/bucket.go:216-225 | the window in progress is handed out once, and never an empty one |
| Grouping.GroupsAreGroups | internal/metrics/bucket.go:190-211 | one pass from left to right finds maximal groups, in order |
| Grouping.GroupsAreComplete | internal/metrics/bucket.go:190-211 | the pass finds every maximal group |
| Streams.RunsAreTheMaximalRuns | internal/metrics/bucket.go:182-211 | the computed runs are exactly the maximal runs of consecutive derivable samples sharing a window, in order |
| Streams.AddedByMark | internal/metrics/bucket.go:182-212 | what one sample does, by whether it is underivable, opens a run or joins the one in progress |
| Streams.BucketOfIsWindow | internal/metrics/bucket.go:119-149 | the window of a run has aligned bounds, the facts of its last sample and for each metric the summary of exactly its readings |
| Streams.TracksAlways | internal/metrics/bucket.go:182-225 | after every sample, what was emitted and what is in progress are the windows of the runs so far |
| Streams.AggregatorRefinesGrouping | internal/metrics/bucket.go:182-225 | for every stream, the emitted windows and the final flush are exactly the windows of the maximal runs, each once, in order |
| StreamTheorems.VolumeTelescopes | internal/metrics/derive.go:92-106 | over any stretch of derivable readings, rates times intervals add up to the difference of the raw counters |
| StreamTheorems.WindowTelescopes | internal/metrics/bucket.go:104-149 | the rates of a window account exactly for the way from the counter before its first reading to its closing counter |
| StreamTheorems.MeanTelescopes | internal/metrics/bucket.go:110-149 | with evenly spaced readings the reported mean times the span is that distance |
| StreamTheorems.NeighboursTelescope | internal/metrics/bucket.go:104-149 | with no underivable sample in between, a window reports the distance between its closing counter and its predecessor's |
| StreamTheorems.WindowsTelescope | internal/metrics/bucket.go:104-149 | over any stretch of windows without an underivable sample, what they report adds up to the distance between the closing counters at its ends |
| StreamTheorems.EveryReadingInOneRun | internal/metrics/bucket.go:182-211 | every derivable sample is in exactly one window |
| StreamTheorems.NoGapWithoutCause | internal/metrics/bucket.go:190-196 | between neighbouring windows only underivable samples are left out |
| StreamTheorems.WindowGeometry | internal/metrics/bucket.go:190-211 | aligned bounds, all readings inside them, one boot, increasing instants |
| StreamTheorems.WindowLength | internal/metrics/bucket.go:167-200 | a window is as long as the setting says, or ten seconds |
| StreamTheorems.EmissionOrder | internal/metrics/bucket.go:194-207 | with increasing times starts never decrease, and are equal only across an underivable sample |
| StreamTheorems.WindowCpuInRange | internal/metrics/bucket.go:123-127 | when each reading meets that condition, min, mean and max of every CPU metric are percentages and the means fit together |
| StreamTheorems.SamplesAreIntervals | internal/metrics/bucket.go:72-78 | the sample counts of all windows, the one in progress included, add up to the derivable intervals |
| Rounding.RoundIsNearest | internal/metrics/bucket.go:63-65 | rounding goes to a nearest integer and halves go away from zero |
| Rounding.Round2Iff | internal/metrics/bucket.go:63-65 | a figure is rounded to the one nearest hundredth, of two equally near the one away from zero |
| Rounding.Round2Properties | internal/metrics/bucket.go:52-65 | rounding to two decimals is monotone, idempotent and off by at most 0.005 |
| Encoding.DocumentIsRounded | internal/metrics/bucket.go:52-102 | a document holds the facts of its window and under the name of each metric its three rounded figures |
| Encoding.DecodedReports | internal/metrics/bucket.go:22-30 | a window read back holds the figures of its document under their names, without a number of readings |
| Encoding.ReEncodesIdentically | internal/metrics/bucket.go:22-30 | encoding a decoded window gives the same document although the number of readings is dropped |
| Encoding.StoredIsFaithful | internal/metrics/bucket.go:52-61 | a stored window keeps its facts, its figures within 0.005 and its mean between its extremes |
| FileNames.NameOrder | internal/spool/spool.go:82-89 | the listing order of any two names in terms of starts and sequence numbers, in both directions |
| FileNames.NamesInjective | internal/spool/spool.go:86-89 | equal names have equal starts and sequence numbers, for all 64-bit starts and 32-bit numbers |
| FileNames.NamesChronological | internal/spool/spool.go:33-35 | from the epoch on and up to 999999 the listing is chronological |
| FileNames.SeqOrderKeptIff | internal/spool/spool.go:88 | at one start the order holds exactly if the earlier number does not exceed the leading digits of the later |
| FileNames.MillionthNameOutOfOrder | internal/spool/spool.go:88 | number 1000000 is listed before 999999 |
| FileNames.BeforeEpochBackwards | internal/spool/spool.go:88 | starts before 1970 are listed in reverse |
| FileNames.NamesAreWindowFiles | internal/spool/spool.go:86-89 | every name the spool gives has the extension a reader looks for |
| FileNames.WindowFileIff | internal/spool/spool.go:132 | a window file is any file whose name ends in ".json" |
| FileNames.NameSpells | internal/spool/spool.go:86-89 | from the epoch on a name is the start in twenty digits, a dash, the number in at least six, and the extension |
| FileNames.TempNamesAreNot | internal/spool/spool.go:97-135 | no temporary name has it |
| FileNames.FreshToken | internal/spool/spool.go:97 | a temporary file gets a name that is not taken |
| ByteOrder.SortedUnique | internal/spool/spool.go:138 | a sorted listing is determined by the set of names |
| SpoolModel.QueueMembers | internal/spool/spool.go:121-171 | the queue is sorted by name and holds exactly the decodable window files |
| SpoolModel.PeekSpecification | internal/spool/spool.go:148-175 | a peek returns exactly the first windows, deletes exactly the undecodable files with fewer than n windows before them, keeps the queue and is empty only if no window exists |
| SpoolModel.PeekKeepsQueue | internal/spool/spool.go:148-175 | a peek never changes the queue, also when it stops at a file that cannot be read |
| SpoolModel.ScanFailsIff | internal/spool/spool.go:154-162 | a peek fails exactly at a file that cannot be read and has fewer than n windows before it |
| SpoolModel.ScanRemoves | internal/spool/spool.go:154-168 | a peek, successful or not, deletes exactly the undecodable files it gets to |
| SpoolModel.DiscardDropsHead | internal/spool/spool.go:178-185 | discarding the first k windows leaves the others in order |
| SpoolModel.DropCountIsLeast | internal/spool/spool.go:226-242 | the drop count is the least after which the total fits or one file remains |
| SpoolModel.CapSpecification | internal/spool/spool.go:209-249 | survivors of the cap are an unchanged suffix of the sorted names, the longest that fits or the last file |
| SpoolModel.SurvivesCapIff | internal/spool/spool.go:226-242 | a file survives exactly if it and all files after it fit, or it is last |
| SpoolModel.AddConserves | internal/spool/spool.go:65-80 | the old queue and the new window are the new queue, the losses to the cap and the replaced window |
| SpoolModel.AddRespectsCap | internal/spool/spool.go:209-249 | after a successful add the spool is not empty, within the cap or a single file, and exactly the number of lost files is reported |
| SpoolModel.RemovingKeepsFit | internal/spool/spool.go:165-185 | no removal takes the spool out of its cap |
| SpoolModel.NewWindowSurvivesIff | internal/spool/spool.go:65-80 | when the cap drops the window just added |
| SpoolModel.CrashIsAtomic | internal/spool/spool.go:91-119 | at every step of an add a reader finds the old queue, or a suffix of the queue with the whole new window |
| SpoolModel.CrashShowsOnlyWholeWindows | internal/spool/spool.go:91-140 | whatever is found after a crash was queued before or is the whole new window |
| SpoolModel.RestartReplacesIff | internal/spool/spool.go:48-118 | a window of one process replaces a queued one of another exactly if their starts and sequence numbers agree |
| Spooling.Spool.Add | internal/spool/spool.go:65-80 | the directory, counter and drop reports after an add, and every directory it passes through |
| Spooling.Spool.NextName | internal/spool/spool.go:86-89 | the counter advances modulo 2^32 and names the window |
| Spooling.Spool.Write | internal/spool/spool.go:94-119 | the file is published under its name or the directory is as before, through the intermediate states of each way it can fail |
| Spooling.Spool.ListFiles | internal/spool/spool.go:122-141 | the sorted listing of the window files |
| Spooling.Spool.Peek | internal/spool/spool.go:148-175 | the loop computes the scan and deletes what the scan removes |
| Spooling.Spool.Discard | internal/spool/spool.go:178-185 | exactly the named files are gone, and the others are as before |
| Spooling.Spool.Stats | internal/spool/spool.go:188-206 | the number and total size of the queued files |
| Spooling.Spool.EnforceCap | internal/spool/spool.go:209-249 | the loop drops exactly the least number of files and reports exactly that number once, or nothing |
| Backoffs.Random | internal/ship/backoff.go:47-55 | a draw lies in [0, n), or is zero when there is nothing to draw from |
| Backoffs.EveryDelayCanBeDrawn | internal/ship/backoff.go:14-20 | every delay below the ceiling can be drawn |
| Backoffs.EveryOffsetCanBeDrawn | internal/ship/backoff.go:76-83 | the startup offset can be exactly any duration below the period |
| Backoffs.Backoff.Delay | internal/ship/backoff.go:59-74 | the early-breaking loop draws from the ceiling of that many failures |
| Backoffs.Backoff.Spread | internal/ship/backoff.go:76-83 | the startup offset lies in [0, d) |
| Backoffs.CeilingFollowsScheduleIff | internal/ship/backoff.go:64-71 | the ceilings are min(base * 2^(n-1), cap) for every n exactly if the doubling meets the cap before it overflows; otherwise some delay is always zero |
| Backoffs.RealisticIsSafe | internal/ship/backoff.go:33-45 | base below 2^62 and cap up to 2^62 suffice |
| Backoffs.DefaultSchedule | internal/ship/backoff.go:9-45 | the default ceilings: 2, 4, ... 512 seconds, then 15 minutes |
| Backoffs.ConfiguredSchedule | internal/ship/backoff.go:33-74 | for settings up to 2^62 the ceilings are the configured base doubled up to the configured cap, two seconds and fifteen minutes where a setting is not positive |
| Backoffs.ScheduleMonotone | internal/ship/backoff.go:64-71 | the schedule never falls as failures accumulate |
| Backoffs.CeilingWithinCap | internal/ship/backoff.go:64-71 | from the second failure on the ceiling is within the cap; from the first on exactly if the base is |
| WireConfig.Config.Apply | internal/wire/wire.go:74-100 | the loop replaces all set fields if all are acceptable, and otherwise returns the schedule untouched with a field that is not |
| WireConfig.AppliedWithinBounds | internal/wire/wire.go:70-100 | after an accepted reply each field is as before or within its bounds, even when the product wraps |
| WireConfig.AcceptedIff | internal/wire/wire.go:50-95 | while products fit, a reply is accepted exactly if each set field is within its published limits |
| WireConfig.HonouredIff | internal/wire/wire.go:91 | a field is honoured to the second exactly if its product fits 64 bits |
| WireConfig.WrappedReplyIsAccepted | internal/wire/wire.go:91-96 | an absurd reply that wraps to five seconds is accepted |
| Ship.OutcomeTable | internal/ship/ship.go:123-187 | windows are acknowledged exactly by a decodable 2xx, dropped exactly by an encoding failure or a 4xx other than 401, 403 and 429, and kept otherwise; which error says unauthorized, and the status it carries |
| Conservation.TakenIsHead | internal/agent/agent.go:138-150 | what an upload takes is the head of the queue |
| Conservation.UploadConserves | internal/agent/agent.go:133-207 | an upload, however it ends, moves windows between places and loses none |
| Conservation.RunConserves | internal/agent/agent.go:89-129 | in every reachable state every window is in exactly one place |
| Accounts.RunAgrees | internal/agent/agent.go:110-238 | the aggregators were fed exactly the collected samples and what was closed is what their streams complete |
| Accounts.ReadingsAccountedFor | internal/agent/agent.go:89-129 | in every reachable state the closed windows and the one in progress hold one reading for each derivable interval fed so far |
| Accounts.ShutdownFlushes | internal/agent/agent.go:242-251 | after shutdown every window of every stream was closed |
| Accounts.EveryWindowAccountedFor | internal/agent/agent.go:89-264 | over any run: all samples fed, all windows closed, one reading for each derivable interval, documents preserved, each window in exactly one place |
| AgentTheorems.RunKeepsBackoff | internal/agent/agent.go:133-172 | failures count the failed sends since the last success, the gate is the last failure plus its delay, all sends respect it |
| AgentTheorems.ShutdownKeepsPacing | internal/agent/agent.go:242-251 | only the attempt at shutdown is exempt from the gate |
| AgentTheorems.WaitsAfterFailure | internal/agent/agent.go:169-172 | the wait after a failure can be exactly any duration below the ceiling for that many failures |
| AgentTheorems.ShutdownSends | internal/agent/agent.go:242-251 | whatever the gate, shutdown sends the first batch of what is queued, the last window included |
| AgentTheorems.UploadRetention | internal/agent/agent.go:133-207 | the batch is the head of the queue; a kept batch leaves the queue unchanged, a dropped or acknowledged one takes exactly its windows away; a window closed by the reply and the rest of the queue are then queued, lost to the cap, replaced or recorded as not written |
| AgentTheorems.FullBatch | internal/agent/agent.go:138-152 | a request carries a full batch or the whole queue; with an open gate, a queued window and readable files there is one |
| AgentTheorems.BatchLimit | internal/agent/agent.go:16-53 | a request carries as many windows as configured, or 360, or all there are |
| AgentTheorems.WidthChangeKeepsReadings | internal/agent/agent.go:220-228 | a width change starts a new aggregator; the window in progress and the queue are afterwards queued, lost to the cap, replaced or, if the write failed, recorded as not written |
| AgentTheorems.RunKeepsCap | internal/spool/spool.go:209-249 | in every reachable state the spool is within the cap or a single file, once it was or a write succeeded, and the drop reports add up to the files the cap removed |
| AgentTheorems.CapInBytes | internal/spool/spool.go:23-62 | an add keeps the spool within the configured size, or 32 MiB, and removes nothing otherwise |
| AgentTheorems.ConfigKeepsSchedule | internal/agent/agent.go:210-218 | an unacceptable reply changes nothing at all, an accepted one keeps the schedule sane |
| AgentTheorems.ConfigAdopts | internal/agent/agent.go:210-238 | an acceptable reply sets each period it names, whether the width is among them or not |
| AgentTheorems.RunFollowsReplies | internal/agent/agent.go:158-238 | in every reachable state the schedule is exactly what the acknowledged replies, in order, made of the one at the start |
| AgentTheorems.ShutdownFollowsReplies | internal/agent/agent.go:242-264 | and after the shutdown |
| AgentTheorems.RunKeepsSchedule | internal/agent/agent.go:210-238 | in every reachable state each field is its start value or within bounds and the aggregator works with the width in force |
| Draining.RequestsIsCeiling | internal/agent/agent.go:16-22 | the number of requests for a backlog is its size over the batch, rounded up |
| Draining.AcceptedUpload | internal/agent/agent.go:138-166 | an accepted upload takes a full batch or the whole queue; on an empty queue it sends nothing and leaves no file; a reply adds at most the window in progress, once, and exactly if its write succeeds, replaces nothing and fits the cap |
| Draining.Drains | internal/agent/agent.go:133-167 | a platform that accepts and whose replies hand no window over gets every queued window once, in order, in exactly that many requests, and one more tick leaves no file, corrupt ones included |
| Draining.DrainsWhateverTheReply | internal/agent/agent.go:133-228 | whatever an accepting platform replies, the spool is empty after that many requests, or one more if a window was in progress |
| Draining.ExtraRequestIff | internal/agent/agent.go:133-228 | that many accepted requests leave a window queued exactly if some reply hands the window in progress over without loss and the backlog fills its batches or that request was the last |
| Draining.ExtraRequestNeeded | internal/agent/agent.go:220-228 | an instance: one queued window, a batch with room and a changed width take two requests |
| Delivery.RunNumbers | internal/spool/spool.go:86-89 | in every reachable state each window has the name of its start and of its place among the named windows, modulo 2^32 |
| Delivery.QueuedInOrderIff | internal/spool/spool.go:33-35 | in every reachable state, which of two queued windows is sent first |
| Delivery.RunInOrder | internal/agent/agent.go:110-167 | in every state of a run whose windows are named in ascending order, what was delivered followed by what is queued is in name order and nothing was replaced |
| Delivery.WidthsInOrderIff | internal/agent/agent.go:220-228 | a change of width keeps the starts of windows in order for all instants exactly if the new width divides the old one |
| Delivery.StartsNeverFall | internal/agent/agent.go:220-228 | with dividing widths and a clock that never goes back no window starts before one closed earlier |
| Delivery.OrdinaryRunAscends | internal/agent/agent.go:110-228 | the windows of such a run are named in ascending order |
| Delivery.FewWindowsInOrder | internal/spool/spool.go:82-89 | up to 999999 windows, those of one start are listed in the order they were closed |
| Delivery.DeliveryIsFifo | internal/agent/agent.go:110-264 | over such a run and its shutdown, of two windows of the process the one closed first is delivered first, and nothing is replaced |
| Delivery.QuietKeepsHead | internal/agent/agent.go:110-152 | between two requests windows are only added behind and taken by the cap in front |
| Delivery.NeverInTwoPlaces | internal/agent/agent.go:89-129 | in every state of such a run no window is in two places |
| Delivery.RetryResends | internal/agent/agent.go:138-152 | the next request after a kept batch, however many ticks later, begins with it, less what the cap took from its front, and is filled up; it is the same batch exactly if the cap took nothing and nothing fills it up |
| Reordering.ReorderingRunBreaksFifo | internal/agent/agent.go:220-228 | for a width in force that the width of a reply does not divide, a run that delivers a later window before an earlier one |
| Reordering.WidthChangeSafeIff | internal/agent/agent.go:220-228 | every regular run over any spool, or over the empty one, with one change of width is first in, first out exactly if the new width divides the one in force |
| Reordering.DividingIsSafe | internal/agent/agent.go:220-228 | the safe half, for widths of any size |
| Resending.BatchGrows | internal/agent/agent.go:138-152 | a run that meets the conditions of `RetryResends` and in which the kept batch and the next one differ |
| Agents.Agent.constructor | internal/agent/agent.go:63 | the state in which the loop starts |
| Agents.Agent.Sample | internal/agent/agent.go:110-123 | one sampling tick |
| Agents.Agent.Persist | internal/agent/agent.go:125-129 | a window goes to the spool, or is recorded as not written |
| Agents.Agent.Upload | internal/agent/agent.go:133-167 | one upload tick, and whether it changed the schedule |
| Agents.Agent.HandleFailure | internal/agent/agent.go:169-207 | the books after a failed request, and the batch dropped only if rejected |
| Agents.Agent.HandleSuccess | internal/agent/agent.go:158-164 | the batch discarded and the backoff cleared |
| Agents.Agent.ApplyConfig | internal/agent/agent.go:210-238 | the schedule after a reply, and whether it changed |
| Agents.Agent.Shutdown | internal/agent/agent.go:242-264 | the window in progress persisted, a last ungated upload, the remaining backlog counted |
| Agents.Agent.Step | internal/agent/agent.go:89-99 | one tick of either kind |
| Agents.Agent.Loop | internal/agent/agent.go:89-99 | any sequence of ticks leads to the state reached after its events |
| Agents.Agent.Run | internal/agent/agent.go:89-107 | any sequence of ticks followed by a shutdown leads to the state the theorems speak about |

## Left out

- Reading `/proc` and `statfs`, and the counters that never reach a window (packets, errors, operations, free and cached memory).
- HTTP, TLS, gzip and the text of JSON: a request has one of the ends `Send` distinguishes, a document is what its text says, and its size is an input.
- Tickers, signals, logging, the startup check and the spread wait of `Run`: a run is any interleaving of ticks, and a sampling tick may fail to collect.
- IEEE rounding and NaN: figures are reals.
- The failure of a removal or of a size query: removals succeed. A write fails before it is named, before its temporary file exists, or with that file incomplete or complete on disk and removed again.
- Subdirectories and clean-up of temporary files of a crashed process: they are invisible to readers, and nothing else is claimed of them.
- Spooling.Spool.Add: sizes add up in unbounded integers; the code's 64-bit total overflows only beyond what a disk holds.
- Windows.Bucket.Add: the five, three and four calls of the Go method are three methods here.
- Aggregation.Aggregator.Add: a sample's uptime is taken to be not negative, as `/proc/uptime` reports it.
- AgentTheorems.RunKeepsBackoff: the clock of upload ticks is any natural number of nanoseconds; nothing is assumed about how it advances between ticks.
- Reordering.WidthChangeSafeIff: a width in force of more than some 36 years is left out of the failing half, because the run that shows it needs several windows within 64-bit Unix time.
- Command-line handling, `ship.New` and credentials.

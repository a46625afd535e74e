# Verified model of the ROS 2 performance framework's measurement pipeline

The framework publishes numbered, time-stamped messages, tracks what arrives, and reports latency
statistics and counts of late, too late and lost messages. This project models that pipeline from the
number put on a message to the line printed by the parent of a tree of processes, and proves what the
reported figures mean. `dafny verify dfyconfig.toml` checks the whole project.

| file | what it models |
|---|---|
| `Numbers.dfy` | 32- and 64-bit wrap-around, truncating division and conversion, doubles with NaN |
| `Statistics.dfy` | the one-pass statistics: a class, and the two-pass definitions it is checked against |
| `Tracking.dfy` | the tracker as a class and as a value, arbitrary runs of scans and delta reads, and what its lost counter means |
| `Lateness.dfy` | the truncated lateness thresholds against the documented ones; stored frequencies |
| `Link.dfy` | publisher, first-in first-out channel that may drop, subscriber: whole runs of a topic |
| `Pooling.dfy` | averages over trackers and over delta windows, with the NaN of an empty statistic |
| `Node.dfy`, `Services.dfy`, `Actions.dfy` | request and goal callbacks of a node, their protocols as state machines, and methods that run the callbacks on two nodes |
| `Overtaking.dfy` | one action whose results can overtake their feedback |
| `Sharing.dfy` | several client nodes of one service, whose requests interleave at the one tracker of the server |
| `Text.dfy`, `Report.dfy` | printing and parsing of the totals line, `strtoul` with base 0 included |
| `Aggregate.dfy` | fork tree, result paths, and the parent's sums over all processes |
| `Discovery.dfy`, `Topology.dfy` | the two discovery gates, and what they ask of a generated topology |
| `Plot.dfy` | the group-by merge of the plot scripts and the mean that is plotted |
| `Naming.dfy` | the generator's lower-case names, which are the keys of its dispatch maps |

Classes stand where the source has objects whose methods update their fields (`Stat`, `Tracker`, the node,
the parsed file). Their methods are proved against functions on values (`Scanned`, `WithSample`,
`RequestSent`, ...), and the lemmas about whole runs are about those same functions. `Execute` in
`Services.dfy` and `Actions.dfy` runs the methods of two node objects and ends in the state of the run.

## Conventions

- Doubles are exact reals plus NaN and the infinities; rounding errors are not modelled. `std::round`,
  truncating conversions, integer division and unsigned wrap-around are.
- Counters that grow by one with every stored sample (received, late, too late, the sample count) are
  natural numbers: each sample is also appended to an in-memory list, so they cannot reach 2^64. The lost
  counter can, and wraps explicitly; so do the sums over processes.
- A message's time stamp may lie in the future: the latency is then truncated and wrapped to 64 bits as
  in the code.
- A conversion or product that C++ leaves undefined (a zero frequency, an overflowing threshold) is a
  precondition, `ScanDefined`.
- Each callback, scan and delta read is atomic.

## Findings

Where a promise of the documentation fails, the code is modelled as it is and the exact condition is proved.

- The truncated thresholds classify all whole-microsecond latencies as documented, for all frequencies, exactly
  when both options are not negative and one is zero or the percentage divides 100 (`AgreesExactly`). A negative bound becomes a
  threshold of at least 2^31 microseconds, which only longer latencies exceed (`NegativeBound`).
- The code drops the fraction of the latency. Under such options a message gets the documented class if and
  only if it is not stamped a microsecond or more in the future, the too late bound does not lie between the
  whole microseconds and the latency, and neither does the late bound of a message that is not too late
  (`ClassifiedAsDocumented`). At 10 Hz a latency of 50000.5 microseconds is counted as late and documented as
  too late (`FractionDropped`); a message from the future is always too late (`FutureStampTooLate`).
- A client stores its frequency in whole hertz. Its latencies get the documented class of its own period if and
  only if the next longer period would store a lower frequency, or the period is 50 ms or more
  (`OwnPeriodExactly`); at 1500 microseconds a latency of 1501 is not too late (`PeriodNotRecovered`).
- A client period above one second stores the frequency zero, for which the thresholds divide by zero
  (`ClientThresholdsDefined`).
- On a link that keeps the order, the lost counter is the number of messages dropped before the last one received
  if and only if no 2^32 consecutive ones of them were dropped (`LostCountsDrops`, `LongSilenceUnnoticed`).
- A number other than the expected one counts as the rest of a turn of the number field, however far behind
  it lies (`StepBack`). Over up to 2^32 messages no loss is counted if and only if they arrive in order,
  each once (`Tracking.NoLossExactly`).
- Two clients of one service each number from zero, and the server has one tracker for both. Among up to 2^32
  requests it counts no loss if and only if all come from one client (`SharedServer`); when a second client
  follows n requests of the first, it counts 2^32 - n mod 2^32, or none exactly when n is a multiple of 2^32
  (`SecondClientCountsAsLoss`).
- Feedback and results of an action are numbered together but travel apart. When all goals succeed, the client
  counts no loss among up to 2^32 messages if and only if no result overtakes its feedback
  (`Overtaking.NoLossExactly`); a single goal whose result arrives first ends with 2^32 - 1 (`OvertakingHappens`).
- One tracker without a sample turns the average of the whole process into NaN (`PooledMean`, `PoolTotals`),
  which the parent reads as a mean of zero (`MeanReadIs`). In the periodic read of the delta statistics the
  NaN reaches an integer conversion that C++ leaves undefined (`AverageLatency`).
- A mean of one second or more is printed in scientific notation, of which the parent reads one digit
  (`WholeTextReadsBack`).
- In padded mode a column whose text fills its width runs into the next one (`TokensAreFields`). The parent reads
  the lost messages as their number if no column before the last is full, and as zero otherwise (`LostReadBack`),
  so a loss of 10^9 or more, for which one message out of order is enough, is reported as none
  (`GreatLossUnread`, `Aggregate.OutOfOrderUnread`). What is read instead of the other counters is
  `PaddedLineRead`; when only the late percentage is full, all four come back if and only if nothing was lost and
  the too late percentage reads as the number of too late messages (`CrowdedShare`, `CrowdedLineMisread`).
- The aggregated plot divides by zero exactly in the cells of which every file has a single line (`PlotFiles`).
- Interface names get the same key exactly when they have the same letters and their runs of capitals begin at
  the same places, the first letter aside (`CollideExactly`, `CapitalsCollide`).

## Model

| member | source | states |
|---|---|---|
| Statistics.Stat.AddSample | performance_metrics/include/performance_metrics/stat.hpp:44-63 | the fields stay the shifted sums, extremes and count of exactly the samples added so far |
| Statistics.Stat.GetMean | performance_metrics/include/performance_metrics/stat.hpp:65-71 | NaN exactly when empty, otherwise the arithmetic mean of all samples |
| Statistics.Stat.GetVariance | performance_metrics/include/performance_metrics/stat.hpp:73-82 | the value under the square root is the two-pass population variance, in the early return for one sample too; NaN exactly when empty |
| Statistics.Stat.GetMax | performance_metrics/include/performance_metrics/stat.hpp:84-90 | a greatest sample, or NaN exactly when empty |
| Statistics.Stat.GetMin | performance_metrics/include/performance_metrics/stat.hpp:92-98 | a least sample, or NaN exactly when empty |
| Statistics.ShiftedMean | performance_metrics/include/performance_metrics/stat.hpp:61-70 | the one-pass mean formula gives the mean whatever the shift |
| Statistics.ShiftedVariance | performance_metrics/include/performance_metrics/stat.hpp:61-81 | the one-pass variance formula gives the two-pass variance whatever the shift |
| Statistics.VarianceBounds | performance_metrics/include/performance_metrics/stat.hpp:44-98 | the variance lies between 0 and (max - mean)(mean - min), and is 0 exactly when all samples are equal |
| Statistics.OrderIndependent | performance_metrics/include/performance_metrics/stat.hpp:44-98 | mean, variance and extremes depend only on the multiset of samples, although the first is the shift |
| Tracking.Tracker.Scan | performance_metrics/src/tracker.cpp:38-139 | the whole new state is that of the function whose samples, counters and numbers the laws below describe in plain arithmetic |
| Tracking.ScanSamples | performance_metrics/src/tracker.cpp:44-50 | one scan appends to the history and to the open window the whole microseconds from the stamp to the time of the scan, and that is the last latency |
| Tracking.Tracker.AddSample | performance_metrics/src/tracker.cpp:141-159 | the sample joins the history and the open window; size and frequency are those of the first sample |
| Tracking.Tracker.NextNumber | performance_metrics/src/tracker.cpp:161-166 | returns the current number and advances it modulo 2^32 |
| Tracking.Tracker.ResetDeltaStat | performance_metrics/include/performance_metrics/tracker.hpp:105 | the open window is emptied and nothing else changes |
| Tracking.NumberConservation | performance_metrics/src/tracker.cpp:58-67 | for arbitrary numbers received, received plus lost is the expected number modulo 2^32 in every reachable state |
| Tracking.EveryMessageClassified | performance_metrics/src/tracker.cpp:96-138 | over every run the late and too late counters are the messages of those classes, and with the on-time ones they make up the received, all of which are stored |
| Tracking.SamplesAreLatencies | performance_metrics/src/tracker.cpp:135-158 | over every run the history has one entry for each message, the whole microseconds from its stamp to its scan; the last latency is the newest entry, the size and the frequency are those of the first message |
| Tracking.StepBack | performance_metrics/src/tracker.cpp:61-67 | one scan leaves the lost counter alone exactly when the number is the expected one; any other number adds 2^32 minus its distance behind the expected one |
| Tracking.LostIsGapSum | performance_metrics/src/tracker.cpp:58-67 | over every run, whatever the numbers, the lost counter is the sum of the gaps between consecutive numbers modulo 2^64, and received their count |
| Tracking.NoLossExactly | performance_metrics/src/tracker.cpp:58-67 | for up to 2^32 messages the lost counter is zero if and only if the k-th number scanned is k modulo 2^32 for all k |
| Tracking.DisabledOnlySamples | performance_metrics/src/tracker.cpp:58-138 | a disabled tracker counts no loss and no lateness but still takes every sample |
| Lateness.AgreesExactly | performance_metrics/src/tracker.cpp:88-97 | the truncated threshold agrees with the documented minimum for every frequency and every latency of whole microseconds exactly for the stated option values |
| Lateness.NegativeBound | performance_metrics/src/tracker.cpp:89-97 | a negative minimum b becomes the threshold 2^32 + b, at least 2^31, exceeded exactly by longer latencies |
| Lateness.ClassifiedAsDocumented | performance_metrics/src/tracker.cpp:44-97 | for all exact settings, frequencies and times the class is the documented one of the latency, fraction included, if and only if the stamp is less than a microsecond ahead and dropping the fraction does not take the latency below a bound that decides |
| Lateness.DefaultsAsDocumented | irobot_benchmark/README.md:79-83 | under the default options a message gets the class documented by min(period, 50 ms) and min(period / 5, 5 ms), if and only if its stamp is less than a microsecond ahead and neither bound lies between its whole microseconds and its latency |
| Lateness.FractionDropped | performance_metrics/src/tracker.cpp:44-50 | a latency of 50000.5 microseconds at 10 Hz is counted as late where the documented class is too late |
| Lateness.SeverityMonotone | performance_metrics/src/tracker.cpp:96-97 | a longer latency is never classified as less severe |
| Lateness.FutureStampTooLate | performance_metrics/src/tracker.cpp:44-50 | the 64-bit latency is the signed number of whole microseconds exactly when the stamp is less than a microsecond ahead; otherwise it is at least 2^63 and too late under any options |
| Lateness.RecoveredPeriod | performance_test/include/performance_test/performance_node_base_impl.hpp:198 | the period recovered from the stored client frequency is never shorter, is stable under a second conversion, and is exact exactly when the next period stores a lower frequency |
| Lateness.OwnPeriodExactly | performance_test/include/performance_test/performance_node_base_impl.hpp:198 | every whole latency of a client gets the documented class of the client's own period if and only if the next longer period stores a lower frequency or the period is at least 50 ms |
| Lateness.PeriodNotRecovered | performance_metrics/src/tracker.cpp:88-97 | a client of 1500 microseconds stores 666 Hz, and a latency of 1501 is late instead of too late |
| Lateness.ShortPeriodsExact | performance_test/include/performance_test/performance_node_base_impl.hpp:307 | client periods up to a millisecond are recovered exactly |
| Lateness.ClientThresholdsDefined | performance_metrics/src/tracker.cpp:88-94 | the thresholds of a periodic client are defined exactly for periods up to one second |
| Lateness.PublisherPeriodExact | performance_test/include/performance_test/performance_node_base_impl.hpp:343 | the publisher's exact quotient recovers every period |
| Lateness.PublisherPeriodRounded | performance_metrics/src/tracker.cpp:88 | with the quotient stored and taken again in single precision, however rounded, at most one microsecond of the period is lost, and none exactly when the second one does not end below it |
| Link.RunInvariant | performance_test/include/performance_test/performance_node_base_impl.hpp:345-361 | after every sequence of publishing, dropping and delivering, numbers are true indices modulo 2^32, the order is kept, and every count matches the fates of the messages |
| Link.MessageConservation | performance_metrics/src/tracker.cpp:58-67 | every message sent has been received, is waiting or was dropped |
| Link.SamplesAreTravelTimes | performance_test/include/performance_test/performance_node_base_impl.hpp:345-361 | over every run the subscriber has one sample for each delivery, its time less the publish time of that message in whole microseconds, and the publisher has the durations of its publications |
| Link.FirstMessageKept | performance_metrics/src/tracker.cpp:147-151 | publisher and subscriber keep the size and the frequency of the first message that they have sampled |
| Link.LostCountsDrops | performance_metrics/src/tracker.cpp:61-67 | the lost counter is exactly the drops before the last message received, across any number of wrap-arounds, if and only if no 2^32 consecutive messages before it were dropped |
| Link.LongSilenceUnnoticed | performance_metrics/src/tracker.cpp:65-66 | dropping 2^32 messages in a row and delivering the next leaves the lost counter at zero |
| Pooling.WeightedTotalIsSum | performance_metrics/src/stat_logger.cpp:199-205 | adding count times mean gives the sum of all samples, or NaN exactly when a part is empty |
| Pooling.PooledMean | performance_metrics/src/stat_logger.cpp:199-207 | the average before rounding is the mean of all samples together exactly when every part has one; otherwise NaN |
| Pooling.PoolTotals | performance_metrics/src/stat_logger.cpp:192-211 | totals of all trackers, and the rounded mean of their pooled samples, or NaN when a tracker is empty or there is none |
| Pooling.TotalsCountMessages | performance_metrics/src/stat_logger.cpp:192-211 | for any runs of any trackers the totals are the messages received, those of the late and of the too late class, and the gaps between the numbers |
| Pooling.WindowsPartition | performance_metrics/include/performance_metrics/tracker.hpp:99-105 | however scans and delta reads interleave, the windows concatenate to the whole history and the delta counter is the size of the open one |
| Pooling.WindowMeans | performance_metrics/src/stat_logger.cpp:219-228 | the count-weighted mean of the non-empty windows is the mean of the whole run |
| Pooling.AverageLatency | performance_metrics/src/stat_logger.cpp:214-232 | resets every tracker's window and returns the rounded mean of all windows, 0 when all are empty, and an undefined conversion exactly when some but not all are |
| Node.PerformanceNode.AddPeriodicClient | performance_test/src/performance_node_base.cpp:240-258 | a second storing under the same name keeps the entry and only sets the frequency |
| Node.PerformanceNode.SendRequest | performance_test/include/performance_test/performance_node_base_impl.hpp:546-601 | a request is sent exactly when the service is available and the lock free; it carries the next number and the stored frequency, the number advances, and the tracker, the other entries and the lock stay; otherwise nothing changes |
| Node.PerformanceNode.HandleRequest | performance_test/src/performance_node_base.cpp:373-396 | one more message for this server, sampled at the given time and counted by its class, a loss exactly when the number is not the expected one, all else unchanged; the response carries that time and the samples taken before, so the number of the request itself when requests come in sequence |
| Node.PerformanceNode.HandleResponse | performance_test/src/performance_node_base.cpp:355-363 | the client samples the time from the stamp of its own request to now and counts it by its class, a loss exactly when its number is not the expected one; its next number and everything else stay, whatever the response holds |
| Node.PerformanceNode.SendGoal | performance_test/include/performance_test/performance_node_base_impl.hpp:465-543 | a goal is sent exactly when the server is available and the lock free; it carries the next number and the stored frequency, the number advances, the lock is taken, and the tracker and the other entries stay; otherwise nothing changes |
| Node.PerformanceNode.HandleGoal | performance_test/include/performance_test/performance_node_base_impl.hpp:227-237 | one more message for this server, sampled at the given time and counted by its class, a loss exactly when the number is not the expected one; its own numbers and everything else stay |
| Node.PerformanceNode.HandleAccepted | performance_test/include/performance_test/performance_node_base_impl.hpp:246-274 | with n as the next number modulo 2^32, feedback n and result n + 1 at the frequency of the tracker, which is unchanged, each stamped with its own time, and n + 2 next |
| Node.PerformanceNode.HandleFeedback | performance_test/include/performance_test/performance_node_base_impl.hpp:536-540 | the client samples the feedback at the given time and counts it by its class, a loss exactly when its number is not the expected one; the lock and all else stay |
| Node.PerformanceNode.HandleResult | performance_test/include/performance_test/performance_node_base_impl.hpp:520-534 | a success is counted like feedback and a failure changes no entry; the lock is free afterwards and the numbers stay |
| Node.ScanCountsOnce | performance_metrics/src/tracker.cpp:58-67 | every scan is one more message with its sample and its class, and a loss exactly when the number is not the expected one; scans in sequence stay in sequence |
| Services.PeriodicClientsUsable | performance_test/include/performance_test/performance_node_base_impl.hpp:197-198 | the stored frequencies of the clients let every tracker compute its thresholds exactly when no period exceeds one second |
| Services.Run | performance_test/include/performance_test/performance_node_base_impl.hpp:546-643 | every reachable state keeps the lock free and, for each service, the numbering, both trackers and the wire in step |
| Services.ServiceProtocol | performance_test/include/performance_test/performance_node_base_impl.hpp:546-643 | in every run and for every service, requests carry 0, 1, 2, ... without gap, the k-th response header carries k, both sides have received exactly what reached them and count no loss; the k-th sample of the client is the time of the k-th response less the stamp of the k-th request, that of the server the stamp of the k-th response less it |
| Services.WireAfter | performance_test/include/performance_test/performance_node_base_impl.hpp:579-601 | after every run one event adds to the wire exactly the request of an available tick with its time, size, next number and stored frequency, the response of serving with its time, or the time of a handled response |
| Services.UnavailableTick | performance_test/include/performance_test/performance_node_base_impl.hpp:562-577 | a timer tick on an unavailable service leaves no trace in the system |
| Services.Start | performance_test/include/performance_test/performance_node_base_impl.hpp:180-198 | setting up the clients and servers of the given periods gives the initial state with the stored frequencies |
| Services.Execute | performance_test/include/performance_test/performance_node_base_impl.hpp:546-643 | running the callbacks on two node objects ends in the state of the run, so both sides have received what reached them and count no loss |
| Sharing.Run | performance_test/src/performance_node_base.cpp:373-396 | every reachable state of any number of clients keeps each client in sequence and the lost counter of the server equal to the gaps between the interleaved numbers |
| Sharing.SharedServer | performance_test/src/performance_node_base.cpp:373-396 | no client ever counts a loss, and among up to 2^32 requests the server counts none if and only if all came from one client |
| Sharing.SecondClientCountsAsLoss | performance_test/src/performance_node_base.cpp:373-387 | when another client's first request follows n requests of one client, the server has lost 2^32 - n mod 2^32, or nothing exactly when n is a multiple of 2^32 |
| Actions.Run | performance_test/include/performance_test/performance_node_base_impl.hpp:465-543 | every reachable state keeps the lock in step with the goals in flight and, for each action, the numbering, both trackers and the wire |
| Actions.OneGoalInFlight | performance_test/include/performance_test/performance_node_base_impl.hpp:465-543 | in every reachable state at most one goal of the node is in flight over all its actions, and the lock is held exactly while one is |
| Actions.ActionNumbering | performance_test/include/performance_test/performance_node_base_impl.hpp:246-274 | the k-th goal carries k, its feedback 2k and its result 2k+1 modulo 2^32, all with the client's frequency |
| Actions.WireAfter | performance_test/include/performance_test/performance_node_base_impl.hpp:485-540 | after every run one event adds to the wire exactly the goal of an available tick on a free lock, or the feedback and result of an accepted goal, all with their times and sizes; what the client receives it samples at that time |
| Actions.CompletedGoals | performance_test/include/performance_test/performance_node_base_impl.hpp:520-540 | with no goal in flight the client has received two messages per goal less one per failure, and its lost counter is the failures already followed by a message: none when all goals succeeded |
| Actions.Execute | performance_test/include/performance_test/performance_node_base_impl.hpp:465-543 | running the callbacks on two node objects ends in the state of the run: the flag is set exactly while one goal is in flight, and numbers and counters are as stated above |
| Overtaking.Run | performance_test/include/performance_test/performance_node_base_impl.hpp:465-543 | every reachable state keeps the lock, both channels numbered, and the lost counter of the client equal to the gaps between the interleaved numbers |
| Overtaking.NoLossExactly | performance_test/include/performance_test/performance_node_base_impl.hpp:520-540 | when all goals succeed, the client counts no loss among up to 2^32 messages if and only if no result overtakes its feedback |
| Overtaking.OvertakingHappens | performance_test/include/performance_test/performance_node_base_impl.hpp:520-540 | a run of one goal whose result arrives first ends with 2^32 - 1 lost messages |
| Text.StrtoulDecimal | performance_test/src/system.cpp:70 | base 0 reads every decimal text back, zero included, and saturates from 2^64 on |
| Text.WholeTextReadsBack | performance_metrics/src/stat_logger.cpp:112 | a whole double printed with six digits is read back exactly when it is below one million |
| Text.ScientificInFull | performance_metrics/src/stat_logger.cpp:112 | from one million on a number is printed as the nearest number of six digits with its exponent |
| Text.RoundsHalfEven | performance_metrics/src/stat_logger.cpp:112 | the rounding goes to a nearest multiple, and to the even one between two |
| Text.StrtoulSigns | performance_test/src/system.cpp:70 | blanks, signs and the wrap of a negative number |
| Text.StrtoulOctal | performance_test/src/system.cpp:70 | a leading zero is octal and reading stops at the first character that is no digit |
| Text.StrtoulHexadecimal | performance_test/src/system.cpp:70 | hexadecimal digits after 0x in either case |
| Report.LogTotalStats | performance_metrics/src/stat_logger.cpp:80-120 | the heading as a literal in both modes; with commas the eight values in full, and padded, when none of the first seven is full, the eight texts left-aligned at offsets 0, 15, 25, 35, 45, 60, 75 and 85 |
| Report.ParseLine | performance_test/src/system.cpp:49-71 | the value of the text before the separator and the rest after the run of separators, or zero and an unchanged line |
| Report.ParseTotals | performance_test/src/system.cpp:400-406 | the seven parses in a row, each on what the one before left |
| Report.TokensAreFields | performance_test/src/system.cpp:49-71 | the splits give back the printed columns exactly when each of them leaves room for a separator |
| Report.RoundTrip | performance_test/src/system.cpp:395-406 | printing the totals and reading the line gives back the four counters, and the mean exactly when it is below one million; NaN is read as zero |
| Report.ReadColumns | performance_test/src/system.cpp:49-71 | what the seven splits read from any printed line: the texts between separators, the last of which is never cut off |
| Report.LostReadBack | performance_test/src/system.cpp:395-406 | the lost messages are read as their number when no column is full, and as zero whenever one is |
| Report.GreatLossUnread | performance_metrics/src/stat_logger.cpp:117 | from 10^9 lost messages on the padded line is read as none |
| Report.PaddedLineRead | performance_test/src/system.cpp:395-406 | the five values read from every padded line, whichever of the mean, percentage and lost columns are full |
| Report.CountersExactly | performance_test/src/system.cpp:395-406 | all four counters come back if and only if no column is full, or nothing was lost and the texts read in their place stand for the late and too late counts |
| Report.CrowdedLoss | performance_metrics/src/stat_logger.cpp:117 | with only the lost column full, all other counters are right and the loss is read as zero |
| Report.CrowdedShare | performance_metrics/src/stat_logger.cpp:75-76 | with every other column leaving room, the four counters come back if and only if the late percentage leaves room too, or nothing was lost and the too late percentage reads as its count |
| Report.CrowdedLineMisread | performance_metrics/src/stat_logger.cpp:111-118 | a concrete padded line on which two counters are misread |
| Aggregate.ForkProcess | performance_test/src/utils/fork_process.cpp:37-60 | the processes take the indices 0 to N-1 once each, and only the original, with index N-1, is the parent |
| Aggregate.ReadsWhatWasWritten | irobot_benchmark/src/irobot_benchmark.cpp:73-88 | the path rebuilt by the parent is the path that the process wrote, for all inputs |
| Aggregate.StemOf | irobot_benchmark/src/irobot_benchmark.cpp:73-78 | the stem of `name.json` is the name, with or without directories in front |
| Aggregate.PathsInFull | irobot_benchmark/src/irobot_benchmark.cpp:80-88 | both paths written out: `name_log/latency_total.txt` without a results directory, in it for one topology, and in its directory `name` for several |
| Aggregate.FileInFull | performance_metrics/src/stat_logger.cpp:199-211 | the file of a process with commas, heading and all eight values, from the sums over its trackers |
| Aggregate.PathsDistinct | performance_test/src/system.cpp:378-391 | with several topologies two paths coincide exactly when the stems do |
| Aggregate.AggregateStats | performance_test/src/system.cpp:366-419 | the sums over all files that exist and the integer quotient of the means |
| Aggregate.MissingFilesSkipped | performance_test/src/system.cpp:376-417 | each of the five sums is that of its values over the files that exist, modulo 2^64 |
| Aggregate.MeanReadIs | performance_test/src/system.cpp:401 | the mean read from a process is the rounded mean of all its samples, or zero when one of its trackers has none |
| Aggregate.OutOfOrderUnread | performance_test/src/system.cpp:395-406 | one message out of order makes a process count at least 10^9 lost messages, of which the parent reads none |
| Aggregate.ReadTotalsAre | performance_test/src/system.cpp:376-417 | after all processes have written, in any order, reading the first n files gives the pooled sums of the first n processes |
| Aggregate.EndToEnd | irobot_benchmark/src/irobot_benchmark.cpp:216-232 | in whatever order the processes write, the parent's counters are those of all trackers of all processes together, and its average lies between the smallest and the largest mean of a process |
| Aggregate.RunBenchmark | irobot_benchmark/src/irobot_benchmark.cpp:165-232 | forking, each process printing the totals for its own topology in any order, and the parent aggregating: the totals of the system |
| Discovery.MergeIsIntersection | performance_test/src/system.cpp:447-457 | the merge of sorted ranges is the multiset intersection |
| Discovery.GetIntersectionSize | performance_test/src/system.cpp:447-457 | the sum over names of the smaller multiplicity |
| Discovery.PdpPass | performance_test/src/system.cpp:469-479 | one pass succeeds exactly when every node has discovered the whole multiset of reference names |
| Discovery.CountSubscribers | performance_test/src/system.cpp:510-517 | the number of nodes subscribing to each topic, zero for the others |
| Discovery.EdpPass | performance_test/src/system.cpp:519-542 | one pass succeeds exactly when every node found enough endpoints on every topic it publishes; default insertions change no lookup |
| Discovery.EdpGate | performance_test/src/system.cpp:510-542 | the gate opens exactly when the endpoints found are at least this system's subscribers, for all nodes and topics |
| Topology.CreateSubscriberNodes | performance_test_factory/src/factory.cpp:117-156 | the nodes with the topics `end` to `end + publishers - 1` each |
| Topology.CreatePublisherNodes | performance_test_factory/src/factory.cpp:159-198 | one node per identifier, publishing the topic of that identifier |
| Topology.NodesInFull | performance_test_factory/src/factory.cpp:128-192 | how many nodes there are, and their topics by name: `topic_` with the identifiers from the end of the subscribers on, or with the node's own |
| Topology.TopicsMatch | performance_test_factory/src/factory.cpp:137-140 | subscribed and published topics coincide exactly when the publisher identifiers follow the subscriber ones and there are as many as announced, or there are none |
| Topology.GeneratedTopology | performance_test_factory/src/factory.cpp:128-192 | for S subscribers and P publishers every subscriber has exactly the published topics, and the gate asks for S endpoints on each of the P topics and nothing else |
| Plot.MergeDictionaries | scripts/visualization/data_utils.py:111-146 | countable fields added, an uncountable field in both taken from the second, all other fields kept |
| Plot.MergedInFull | scripts/visualization/data_utils.py:111-146 | numbers in both records are added, texts joined with the first in front, of an uncountable field in both the second's is kept, all others are taken over |
| Plot.UncountableFields | scripts/visualization/cpu_ram_plot.py:201 | which fields are not added up |
| Plot.OrganizeData | scripts/visualization/plot_common.py:50-89 | the rows merged one by one into the cell of their group and x value |
| Plot.GroupsOfRows | scripts/visualization/plot_common.py:59-87 | the groups are the values of the separator, or `all`, and their cells the x values of their rows, and no others |
| Plot.CellNamesSeparator | scripts/visualization/plot_common.py:77-79 | with a separator every cell names it |
| Plot.CellIsSum | scripts/visualization/plot_common.py:67-87 | a countable field of a cell is present exactly when a row of the group has it, and is the direct sum over those rows |
| Plot.CellKeepsFirst | scripts/visualization/data_utils.py:137-143 | an uncountable field of a cell keeps the value of the first row that has it |
| Plot.TotalConserved | scripts/visualization/plot_common.py:67-87 | the cells that merging builds add up, in every countable field, to the sum over all rows |
| Plot.ParsedCsv.SplitCsv | scripts/visualization/cpu_ram_plot.py:106-130 | one record per line, each counting as one experiment; which fields it has is stated in FromFile of PlotLines |
| Plot.ParsedCsv.AggregateCsv | scripts/visualization/cpu_ram_plot.py:132-160 | the first line is removed from the lists in place, the others are summed and counted |
| Plot.LineIsBacked | scripts/visualization/cpu_ram_plot.py:114-126 | a record of the split stands for the single measurement of its line, in all three quantities |
| Plot.FileIsBacked | scripts/visualization/cpu_ram_plot.py:144-158 | a record of the aggregation stands for all measurements that were added up, in all three quantities |
| Plot.CellsOfRows | scripts/visualization/plot_common.py:67-87 | a row with the keys of a file belongs to the one cell that the file names: its value of the x key, in the group of its value of the separator |
| Plot.CollectFiles | scripts/visualization/cpu_ram_plot.py:206-223 | exactly one row a file, standing for the measurements after its first line |
| Plot.CollectLines | scripts/visualization/cpu_ram_plot.py:206-223 | exactly one row a line, all files in order, each standing for its one measurement |
| Plot.PlotIsMean | scripts/visualization/plot_common.py:194-196 | the plotted value is the mean of all measurements behind the cell up to the unit, for single lines and for whole files; a cell without measurements divides by zero |
| Plot.DividesByZeroExactly | scripts/visualization/plot_common.py:194-196 | a cell divides by zero exactly when it has rows and none of them stands for a measurement |
| Plot.PlotFiles | scripts/visualization/cpu_ram_plot.py:206-226 | from files to the plot: every row has the directory, publishers, subscribers, message size and frequency of its file and the number of lines added up as its time, and belongs to the cell that these name; every value is the mean of the lines after the first of the files of its cell, and divides by zero exactly when each of these has a single line |
| Plot.PlotLines | scripts/visualization/cpu_ram_plot.py:206-226 | from files to the plot over time: every row has the keys of its file and the time of its line, and belongs to the cell that these name; every value is the mean of all lines of its cell and never divides by zero |
| Naming.GetLowercasedName | performance_test_plugin_cmake/cmake/generate_script.py:49-69 | the loop, the split and the join; for names without blanks they give small letters with an underscore before each run of capitals not at the start |
| Naming.WordsInFull | performance_test_plugin_cmake/cmake/generate_script.py:66-68 | the words have no blank and are not empty, and together they are the text without its blanks |
| Naming.Alphabet | performance_test_plugin_cmake/cmake/generate_script.py:55-68 | the capitals are A to Z, each with its small letter; every other character stands for itself |
| Naming.LettersKept | performance_test_plugin_cmake/cmake/generate_script.py:66-68 | without its underscores the result is the name in small letters |
| Naming.FixedPoints | performance_test_plugin_cmake/cmake/generate_script.py:49-69 | the conversion is idempotent and leaves exactly the names without capitals alone |
| Naming.CollideExactly | performance_test_plugin_cmake/cmake/generate_script.py:154-155 | two names share a key exactly when they have the same letters regardless of case and the same positions after the first at which a run of capitals begins |
| Naming.CamelCaseInvertible | performance_test_plugin_cmake/cmake/generate_script.py:49-69 | a name starting with a capital and without two capitals in a row can be read off its key |
| Naming.CapitalsCollide | performance_test_plugin_cmake/cmake/generate_script.py:55-63 | two names that get the same key |

## Left out

- ROS 2, executors, timers, clocks and threads: callbacks are atomic steps with explicit times; `count_subscribers` and `get_node_names` are parameters fixed within a pass.
- The busy flags are tested and set in two operations; under reentrant callback groups two callbacks could pass the test together. Steps are atomic here.
- Rounding of float and double values, and the square root of the standard deviation: the value under the root is modelled.
- The text of the events, and the throughput figure of the tracker.
- Rejected goals, which keep the lock: the modelled server accepts every goal, as the server in the repository does.
- Runs with several clients of one action server; those of one service are in `Sharing.dfy`.
- Lateness.PublisherPeriodExact: takes the quotient as an exact real; the two roundings to single precision are bounded in PublisherPeriodRounded, for periods up to four seconds, and not computed.
- Actions.Run: delivers each result after its feedback, failures included; results that overtake are in `Overtaking.dfy`, for one action whose goals succeed.
- Report.PaddedLineRead: requires the received, late and too late counters to leave room in their columns; ReadColumns covers every line.
- Lateness.OwnPeriodExactly: takes latencies in whole microseconds; the fraction is treated in ClassifiedAsDocumented.
- Percentages are taken as printed: any text without separators and line ends. The per-tracker lines of the detailed log are not modelled.
- Failing forks and unwritable result directories; a missing file is skipped as in the code.
- Several separator keys at once in the plot scripts, whose groups are keyed by value only and can collide.
- Naming.GetLowercasedName: letters outside ASCII are not treated as capitals, and for names with blanks only the steps are stated; interface names have neither.
- Plot.OrganizeData: countable fields are numbers, as in all files that the scripts read; Python would also join texts.
- The repeated waiting of the discovery gates and their time limit: one pass of each is modelled.
- Services.ServiceProtocol: deliveries keep the order and lose nothing, because middleware that reorders is not part of this model.
- Aggregate.EndToEnd: requires distinct file stems, every mean below one million and every column shorter than its width, because the lines are misread otherwise (see Findings).
- The resource logger, option and topology parsing, quality of service, plugin loading, drawing, and the memory and composition benchmarks: input and output or one-branch wrappers.

# Verified model of the Prometheus-to-Stackdriver sidecar

The sidecar reads Prometheus' write-ahead log (WAL), turns its samples into Stackdriver points and delivers them over a
queue that re-shards itself while it runs. This project models that pipeline in Dafny and proves what it promises. Every
file is one component; `dafny verify dfyconfig.toml` checks all of them.

| file | component |
|---|---|
| `Common.dfy` | what several components share |
| `Entries.dfy` | samples by series: projection, flattening of batches |
| `ShardWorker.dfy` | one shard's worker loop: batching, de-duplication, sending with backoff |
| `Delivery.dfy` | the whole queue as a transition system: appenders, workers, locks, resharding, start and stop |
| `ShardController.dfy` | moving-average rates and the shard count asked for |
| `StoreChunks.dfy` | splitting a batch into concurrent requests |
| `Fnv.dfy`, `SeriesHash.dfy` | FNV-1a on 64 bits and the identity of a series |
| `SeriesCache.dfy` | reset tracking, emitted intervals, garbage collection |
| `Histogram.dfy` | sort adaptor and in-place de-accumulation of buckets |
| `SampleBuilder.dfy` | from samples to points: `next`, `buildDistribution` |
| `ExposedHistogram.dfy` | from the buckets Prometheus exposes to the distribution sent |
| `Draining.dfy` | the loop that drains a sample record |
| `Emission.dfy` | the calls that read one counter or histogram, and the interval filter |
| `Tailer.dfy` | tailing the WAL across segments, offset and size |
| `Restart.dfy` | skipping, saving progress and resuming |
| `Pipeline.dfy` | the tailer's segments and offsets as the series cache and the progress file use them |
| `Aggregator.dfy` | aggregated counters |
| `ResourceMap.dfy` | mapping labels to monitored resources |

Objects whose methods change fields are classes (`EwmaRate`, `QueueManager`, `SeriesCache`, `SeriesCacheEntry`, `Buckets`,
`Tailer`, `CounterTracker`); loops are loops. The concurrent parts (the queue, the rate counter, tailing a log that is being
written, crashes and restarts) are transition systems whose steps are the atomic actions of the code, so a theorem about
all runs is a theorem about all interleavings.

## Findings

These are facts about the code that its comments or documentation do not say. Each has a lemma; where the code misses what
one would expect of it, the lemma says exactly when.

- Samples of one series are attempted in the order they were appended through any number of reshards, as
  `stackdriver/queue_manager.go:367-369` intends (`Delivery.OrderedDelivery`).
- Nothing reads the queue before `Start`. If it is full and an appender waits, that appender holds the read lock that `Start`
  waits for, and neither proceeds on any continuation (`Delivery.StuckStaysStuck`). This is the only deadlock
  (`Delivery.DeadlockIffStuck`). `Start` can get its lock exactly if `Append` has been called at most Capacity times before, and
  up to then no call of `Append` blocks (`Delivery.StartIffRoom`); with a capacity of zero the first call already blocks for good.
- `getResetAdjusted` compares with the baseline, which a detected reset sets to zero. So an entry detects at most one reset of a
  non-negative counter, and a later drop shows as a falling value within one interval (`SeriesCache.ResetIsDetectedOnce`,
  `SeriesCache.SecondResetGoesUnseen`). Over a whole run values never fall within an interval exactly if no drop stays at or
  above the baseline (`SeriesCache.WindowsNeverFallIff`).
- Each bucket of a histogram is adjusted on its own, so a restart after which one bucket is below its baseline and the others
  are not makes a monotone scrape go out with bucket counts 50 and -50 (`ExposedHistogram.HalfSeenRestart`). Counts are
  non-negative exactly if no bucket that counts on from its baseline has grown by less than one below it
  (`ExposedHistogram.CountsNonNegativeIff`); if all series are reset or none is, the distribution is valid
  (`ExposedHistogram.AlikeIsValid`).
- When the size of the WAL cannot be read, the bytes read in that round are counted again in the next, and the whole size is
  counted as deleted (`ShardController.WalEvents`, `ShardController.CountedOnceIff`).
- A series with histogram metadata whose name is not the base name and one of the three suffixes makes `next` return its input
  unchanged without an error; any other input is shortened or reports an error (`SampleBuilder.NextProgressesUnlessStuck`,
  `SampleBuilder.StuckSample`). The drain loop ends exactly if it never has such a sample at its head that stays so whatever
  refreshes find out, and spins on it for ever otherwise (`Draining.EndsIffNeverStuck`).
- `Read` does not return to a segment after it found the next one. What it delivers is a gapless prefix of the log exactly when no
  bytes were written to a segment between its end being seen and its successor being found (`Tailer.TailingIsGapless`,
  `Tailer.LateWriteIsLost`).
- `Offset` goes back exactly when a source longer than a segment, such as a large checkpoint, is left
  (`Tailer.OffsetNeverBackIff`, `Tailer.LongCheckpointGoesBack`).
- A restart loses no sample exactly if each save finds every undelivered sample record, on its way or still unread, at or above
  the offset it saves, and later ones are logged above it too (`Restart.SafeIffInTime`). On a log whose offsets never go back that
  comes down to what is on its way lying within the progress margin (`Restart.SafeIffSavesInTime`, `Restart.LateSaveLosesSample`).
  Behind a checkpoint longer than a segment by more than the margin it fails although nothing is on its way
  (`Restart.LongCheckpointLosesSample`, `Pipeline.LongCheckpointIsUnsafe`).
- Different series can share the string that is hashed, but only if a label name is empty or a string contains 0xff
  (`SeriesHash.CanonicalInjective`, `SeriesHash.CanonicalCollides`).
- `Translate` compares two lengths. That comes to: the match label is discovered, every key of the label map occurs, and no
  two keys share a target (`ResourceMap.Translate`). `BestEffortTranslate` panics exactly if the match label is not discovered
  and the label map is not empty (`ResourceMap.BestEffortTranslate`).

## Assumptions

- Each batch's retries end; the client's answers, lookups that fail, finishing orders and map iteration orders are parameters.
- Nobody appends after `Stop`; `Stop` and reshards wait until `Start` has returned.
- Floats are reals. A NaN sample is a case of its own; +Inf is one among bucket bounds. Times and integers are unbounded except
  where the wrap-around matters, in `Fnv.dfy`.
- A source never returns bytes together with EOF, and WAL records keep their offsets across restarts. Offsets may go back within
  a log; only `Restart.SafeIffSavesInTime` and `Restart.SaveIsSafe` ask that they do not.
- Each method of the series cache is one atomic step.

## Model

| member | source | states |
|---|---|---|
| ShardWorker.RunShard | stackdriver/queue_manager.go:438-508 | The worker loop, fed any script of receive, timer and close events, batches by rules on the events alone: a batch goes out with an event exactly if it has then reached the limit, or the sample just received is of a series in it (that sample stays behind), or the event is the timer or the close, which leave nothing pending. Batches and pending samples together are exactly what was received, in order. |
| ShardWorker.FollowIsBatched | stackdriver/queue_manager.go:463-507 | For every script the worker specification obeys those rules. |
| ShardWorker.BatchingUnique | stackdriver/queue_manager.go:463-507 | For every script the rules leave one way to batch: which batches go out, and with which event each does. |
| ShardWorker.FollowDelivers | stackdriver/queue_manager.go:463-507 | For every script the worker specification loses, repeats and reorders nothing between queue and batches, keeps its set of seen hashes equal to the pending ones, and ends exactly when its queue closes. |
| ShardWorker.SendSamplesWithBackoff | stackdriver/queue_manager.go:510-545 | A batch is resent whole while the error is recoverable; it counts once, all succeeded or all failed, whatever the number of attempts, and there is one sleep between attempts. |
| ShardWorker.BackoffCaps | stackdriver/queue_manager.go:521-545 | The first sleep is the minimum as it stands, the k-th the minimum doubled k times, capped at the maximum, whichever of the two is larger. |
| Delivery.StepRefinesFifo | stackdriver/queue_manager.go:357-371 | Each step of the whole protocol is, for every series, a step of a single FIFO: an append puts a sample at the back, a returned send takes its batch off the front, everything else (dequeues, timers, shard swaps, closing, draining) is invisible. |
| Delivery.StepKeepsInv | stackdriver/queue_manager.go:404-508 | Every step of appender, worker, reshard, start or stop keeps the invariant over shard sets, locks, log and order. |
| Delivery.RunKeepsInv | stackdriver/queue_manager.go:196-231 | The invariant holds in every reachable state: any interleaving, any number of reshards to any shard counts. |
| Delivery.OrderedDelivery | stackdriver/queue_manager.go:357-371 | In every reachable state the attempted samples of a series are a prefix of its appended ones; once Stop has returned they are equal. |
| Delivery.Conservation | stackdriver/queue_manager.go:432-508 | In every reachable state each accepted sample is exactly once in a queue, in a worker's hands or in the log of attempts. |
| Delivery.StopLeavesNothing | stackdriver/queue_manager.go:220-231 | Once Stop has returned every accepted sample has been attempted exactly once. |
| Delivery.CountersAddUp | stackdriver/queue_manager.go:510-545 | In every reachable state succeeded and failed samples add up to the attempted ones. |
| Delivery.OneGenerationRuns | stackdriver/queue_manager.go:357-371 | In every reachable state no new worker runs while the old shard set holds a sample or has a running worker. |
| Delivery.NoSendOnClosed | stackdriver/queue_manager.go:196-202 | In every reachable state an appender that holds the read lock meets no closed queue and nobody who holds the write lock. |
| Delivery.BatchesAreSendable | stackdriver/queue_manager.go:438-508 | Over all runs every batch handed to the client is non-empty, within MaxSamplesPerSend and has pairwise distinct series. |
| Delivery.ShardCountFollows | stackdriver/queue_manager.go:331-371 | In every reachable state the number of live shards is the one last asked for unless a reshard to it is under way; the controller stores that number after handing it over, and once it has, it agrees with the live shards outside a reshard. There is never no shard. |
| Delivery.DrainDescends | stackdriver/queue_manager.go:424-430 | Each worker step other than a retry or an idle timer decreases a measure of what the shard holds, and a running worker of a closed queue always has such a step. |
| Delivery.DrainBounded | stackdriver/queue_manager.go:357-371 | While a whole shard set is waited for, its workers together take at most as many effective steps as the measure of what the set holds, on every continuation, and as long as one runs an effective step is enabled: stopping ends if sends do. |
| Delivery.DeadlockIffStuck | stackdriver/queue_manager.go:196-231 | In every reachable state, other than after Stop and with running workers while nobody holds a sample or a lock, no step that makes progress is enabled if and only if Start has not got the lock, the queue is full and an appender waits for room. |
| Delivery.StuckStaysStuck | stackdriver/queue_manager.go:196-216 | From such a state no continuation lets Start get its lock or an appender its room; nothing is accepted or sent any more. |
| Delivery.StartIffRoom | stackdriver/queue_manager.go:196-216 | Before Start has its lock, some continuation gives it the lock if and only if Append has been called at most Capacity times; up to then every waiting appender can send at once. |
| Delivery.QueueFillsBeforeStart | stackdriver/queue_manager.go:196-216 | For every capacity, zero included, a deadlocked state is reachable. |
| ShardController.EwmaRate.Tick | stackdriver/ewma.go:49-63 | A tick empties the counter and moves the rate by the weight towards the instantaneous rate; the first one sets it. |
| ShardController.EwmaRate.Incr | stackdriver/ewma.go:66-68 | Adds to the counter and leaves the rate. |
| ShardController.RatesLoseNothing | stackdriver/ewma.go:49-68 | Under every interleaving of increments with the tick's load, subtract and update, arrived events are those still in the counter plus those counted, each once. |
| ShardController.RateStaysBetween | stackdriver/ewma.go:49-63 | Over every such run the rate lies between the least and greatest instantaneous rate counted. |
| ShardController.SteadyRateConverges | stackdriver/ewma.go:49-63 | Under a steady load the distance of the rate to that load shrinks by the factor one minus the weight at every tick. |
| ShardController.QueueManager.CalculateDesiredShards | stackdriver/queue_manager.go:248-342 | One round: all five rates after their ticks, what is kept of size and offset, when the round gives up, and which request, if any, becomes the new shard count; the count stays in range. |
| ShardController.WalEvents | stackdriver/queue_manager.go:248-284 | Over all rounds the bytes counted as read are those between the first and last kept offset plus those of failed rounds, counted again; the bytes counted as written lack the whole size of the WAL for each failed round. |
| ShardController.CountedOnceIff | stackdriver/queue_manager.go:248-284 | A reader that only moves forward has each byte counted once if and only if it does not move while sizes cannot be read. |
| ShardController.FailedRoundCountsTwice | stackdriver/queue_manager.go:248-284 | A run that counts ten bytes as twenty. |
| ShardController.DesiredBalances | stackdriver/queue_manager.go:284-308 | The desired count times sending rate times offset rate is one and a half times incoming rate times time spent sending, times the size rate if the log grows at least as fast as it is read, else times two and a half offset rates less one and a half size rates; with log and reader equally fast the backlog plays no part. |
| ShardController.DesiredIsMonotone | stackdriver/queue_manager.go:284-308 | More samples coming in or longer calls never lower the desired count, more samples going out never raise it. |
| ShardController.BacklogAtLeastOne | stackdriver/queue_manager.go:248-342 | With a positive offset rate the backlog factor is at least one, and one just when the log is read as fast as it grows. |
| ShardController.DecideMovesToward | stackdriver/queue_manager.go:248-342 | A request is in [1, MaxShards], differs from the current count, goes towards the desired value from outside the tolerance band, and is the least count that reaches it, as far as the range goes. |
| ShardController.CountStaysInRange | stackdriver/queue_manager.go:248-342 | Over every run of rounds the count stays in [1, MaxShards]. |
| ShardController.ConstantDesireSettles | stackdriver/queue_manager.go:248-342 | While the desired value is constant the count changes at most once, from any start and however often the reshard loop is busy. |
| StoreChunks.Store | stackdriver/client.go:114-249 | The batch goes out as consecutive requests of 200, the last of at most 200 and not empty, that together are the batch, and Store succeeds exactly when every request does; otherwise it reports the error sent first, recoverable just if it is a deadline or an unavailable server. Without a connection nothing goes out: a dial that timed out is a recoverable error, any other failure a final one. |
| StoreChunks.CollectErrors | stackdriver/client.go:181-248 | In every finishing order no goroutine blocks on the error channel, and the first failure is the one returned. |
| StoreChunks.ErrorsFit | stackdriver/client.go:181-182 | The channel's capacity is at least the number of requests. |
| StoreChunks.RequestsShareNoSeries | stackdriver/client.go:181-242 | A batch without two samples of one series is cut into requests no two of which share a series. |
| Fnv.HashAdd | retrieval/fnv.go:24-33 | The byte loop computes FNV-1a from the given intermediate hash. |
| Fnv.PublishedValues | retrieval/fnv.go:14-33 | The hashes of the empty string and of "a" are those published with the algorithm. |
| Fnv.AddConcat | retrieval/fnv.go:24-42 | Hashing a concatenation is hashing the parts in turn. |
| Fnv.AddIsPermutation | retrieval/fnv.go:18-42 | Adding any string permutes the 64-bit values: it has a two-sided inverse. |
| Fnv.AddInjective | retrieval/fnv.go:24-33 | Adding one string to different intermediate hashes gives different hashes. |
| Fnv.AddSurjective | retrieval/fnv.go:24-33 | Every 64-bit value is the result of adding the string to some intermediate hash. |
| Fnv.OneByteNeverCollides | retrieval/fnv.go:24-42 | Two strings that differ in exactly one byte never have the same hash. |
| SeriesHash.FromMap | retrieval/manager.go:328-330 | Whatever order the map is ranged over, the result is its one list of labels sorted by name. |
| SeriesHash.LessIff | retrieval/manager.go:328-330 | The order of the labels is the lexicographic one on the bytes of their names. |
| SeriesHash.CanonicalLayout | retrieval/manager.go:321-345 | The string of a series with two resource labels and one metric label: the types, the resource labels by name, an empty block, the metric label. |
| SeriesHash.HashSeries | retrieval/manager.go:321-345 | The step-by-step hash is FNV-1a of the canonical string of the series, whatever the map iteration orders. |
| SeriesHash.CanonicalInjective | retrieval/manager.go:321-345 | Series without 0xff in their strings and without empty label names have different canonical strings unless they are equal. |
| SeriesHash.CanonicalCollides | retrieval/manager.go:321-345 | Without either condition different series share a string. |
| SeriesCache.SeriesCache.GetResetAdjusted | retrieval/series_cache.go:286-312 | The point returned and the new reset state follow the baseline rule; no other series is touched. |
| SeriesCache.SameWindowDifference | retrieval/series_cache.go:286-312 | Over any samples of an entry two points with one start differ by exactly what the raw values differ. |
| SeriesCache.WindowValues | retrieval/series_cache.go:286-312 | A sample below the baseline starts a window just before itself and carries its raw value; every point carries the raw value or, in the first window, what it exceeds the baseline by. |
| SeriesCache.CountsFromFirst | retrieval/series_cache.go:295-311 | The first sample of an entry makes no point; the points after it, as long as nothing falls below it, start at its time and carry what has been added since. |
| SeriesCache.SeriesCache.UpdateSampleInterval | retrieval/series_cache.go:266-281 | Accepts an interval exactly if none is stored or it continues or follows the stored one, and stores it just then. |
| SeriesCache.SeriesCache.Set | retrieval/series_cache.go:316-333 | A wanted series gets a fresh entry with unset reset state, one that is neither exported nor tracked leaves the cache as it is. |
| SeriesCache.LearnFillsIn | retrieval/series_cache.go:245-262 | Refreshes never change a populated series, and give one that is not populated only what they found out about it, if anything did. |
| SeriesCache.SeriesCache.GarbageCollect | retrieval/series_cache.go:187-243 | Surviving entries are untouched, and the collection loop deletes and stores what `CollectIsExact` says a round does. |
| SeriesCache.LiveSeriesSurvive | retrieval/series_cache.go:106-113 | Over every run of set and collect steps a live series stays, provided maxSegment is never below the segment a series was logged in. |
| SeriesCache.CollectIsExact | retrieval/series_cache.go:187-243 | A round whose checkpoint can be read and is newer than the last one collected stores its number and deletes exactly the series absent from it and logged no later than it; every other round changes nothing; a round done again changes nothing. |
| SeriesCache.LastIsNewest | retrieval/series_cache.go:187-243 | Over every run the collected checkpoint is the newest one that could be read. |
| SeriesCache.CollectedAreGone | retrieval/series_cache.go:187-243 | After a run and a round on a readable checkpoint newer than all before, no series is left that is absent from it and logged no later than it. |
| SeriesCache.CheckpointsOnlyAdvance | retrieval/series_cache.go:187-243 | Over every run the collected checkpoint never goes back. |
| SeriesCache.EmittedNeverOverlap | retrieval/series_cache.go:266-281 | Over every run, of two intervals accepted for one hash the later one extends the earlier or starts at or after its end. |
| SeriesCache.CounterPointsAreEmitted | retrieval/series_cache.go:266-333 | For a reference whose hash gets no other points, with increasing times and non-negative values, every point offered to the filter has start before end and a non-negative value and passes it, through any resets, replacements and collections, and whether or not all its points are offered. |
| Emission.CounterMoves | retrieval/transform.go:73-110 | A call of next on a counter, or on the sum or count of a summary, moves the reset state and the interval as one sample of that reference does. |
| Emission.HistogramMoves | retrieval/transform.go:112-130 | A call of next on a histogram moves the reset state of its count series and the interval as one sample of the count does, offered to the filter just when the histogram is complete. |
| Emission.CounterPoints | retrieval/transform.go:76-106 | A call on a counter, or on the sum or count of a summary, drafts a point exactly if the series has been read before. It carries the raw value, starting just before the sample, if that is below the baseline, else what it exceeds the baseline by; a double as it is, an int64 as a nearest integer, the count of a summary truncated. |
| Emission.GaugePoints | retrieval/transform.go:86-108 | A call on a gauge, an untyped series or a quantile drafts the raw value in the type of the series without a start and leaves the reset state alone. |
| Emission.PointsDiffer | retrieval/transform.go:73-110 | Over the calls of a record two points of a counter with one start differ by exactly what its raw values differ, and the point that opens another window carries its raw value. |
| Emission.PointsPass | retrieval/transform.go:73-134 | In the calls of a record each complete point of a counter or histogram with increasing times passes the interval filter with a non-empty interval, if nothing else uses its hash and its reset state. |
| SeriesCache.DropIsHidden | retrieval/series_cache.go:286-312 | For two samples in order a falling raw value shows as a falling value in one window exactly when it is not below the baseline. |
| SeriesCache.WindowsNeverFallIff | retrieval/series_cache.go:286-312 | Over every run of an entry the values never fall within a window if and only if no raw drop stays at or above the baseline. |
| SeriesCache.ResetIsDetectedOnce | retrieval/series_cache.go:303-311 | Once the baseline is zero no run of non-negative samples moves it again. |
| SeriesCache.SecondResetGoesUnseen | retrieval/series_cache.go:303-311 | A run in which the second reset of a counter goes undetected. |
| Histogram.Buckets.Sort | retrieval/transform.go:179-195 | With only Less and Swap the two parallel slices end up sorted by bound with every bound still beside its value. |
| Histogram.Buckets.Deaccumulate | retrieval/transform.go:276-317 | The loop that reuses the slices it reads equals the functional distribution of the sorted buckets, whose values `BuildHasMoments` and `MonotoneIsValid` give. |
| Histogram.BuildHasMoments | retrieval/transform.go:283-317 | For sorted distinct bounds the mean times a positive count is the sum, and zero otherwise; the count sent is truncated; and the squared deviation is that of the bounds and counts sent: each count times the squared distance of the middle of its bucket from the mean. |
| Histogram.Buckets.ConvertAll | retrieval/transform.go:287-304 | The loop rewrites the fronts of the slices to finite bounds and counts without reading what it has overwritten. |
| Histogram.SortingUnique | retrieval/transform.go:276-278 | With distinct bounds there is one sorted arrangement. |
| Histogram.CountsSumBack | retrieval/transform.go:287-304 | Prefix sums of the bucket counts recover the cumulative values. |
| Histogram.BoundsAreFinite | retrieval/transform.go:287-304 | The bounds of the distribution are exactly the finite ones. |
| Histogram.BoundsIncrease | retrieval/transform.go:287-304 | They are strictly increasing. |
| Histogram.CountsMonotone | retrieval/transform.go:287-304 | Counts that are not negative come from cumulative values that never fall. |
| Histogram.MonotoneIsValid | retrieval/transform.go:276-317 | Adjusted values that never fall, with a +Inf bucket equal to the adjusted count, give one more count than bounds, no negative count, counts adding up to the total, and a non-negative squared deviation. |
| ExposedHistogram.DraftedBuckets | retrieval/transform.go:214-317 | The distribution drafted of a histogram is built of a sorting of exactly the buckets its samples make, each adjusted on its own, and of the adjusted values of its count and sum samples. |
| ExposedHistogram.DraftedIff | retrieval/transform.go:214-275 | A distribution is drafted of a histogram exactly if no lookup fails at its end, each sum, count and bucket has been read before, and there is a count whose reset time is not zero, at which the point then starts. |
| ExposedHistogram.DraftedMoments | retrieval/transform.go:214-317 | Mean, count and squared deviation of what is drafted are, in that sense, those of the adjusted values of its count and sum samples. |
| ExposedHistogram.CountsNonNegativeIff | retrieval/transform.go:214-317 | For raw cumulative values as Prometheus exposes them, no bucket count is negative if and only if no bucket that counts on from its baseline has grown by less than a bucket below it. |
| ExposedHistogram.AlikeIsValid | retrieval/transform.go:214-317 | If the series of an exposed histogram are all reset, or all count on with monotone increments, the distribution sent is valid. |
| ExposedHistogram.HalfSeenRestart | retrieval/transform.go:112-317 | For baselines 60, 100 and 100 and a scrape of 50, 100 and 100, whatever point next drafts has bucket counts 50 and -50 and a count of 0. |
| ExposedHistogram.HalfSeenRestartIsSent | retrieval/transform.go:112-134 | Such a point is drafted, and the interval filter lets it through. |
| SampleBuilder.HistogramLabelsEqual | retrieval/transform.go:322-356 | The two-finger walk answers whether the label lists agree once `le` and `__name__` are filtered out. |
| SampleBuilder.IdentityIsFilter | retrieval/transform.go:320-356 | What the comparison leaves of a label list is every label but `le` and `__name__`, as often as it occurs. |
| SampleBuilder.GatherLoop | retrieval/transform.go:200-270 | The group loop reads what the specification reads, including every touched reset state, and consumes as much. |
| SampleBuilder.BuildDistribution | retrieval/transform.go:200-318 | A distribution comes out just when no series is new and the count was seen; it is built of a sorting of the buckets read, and with distinct bounds its mean and deviation are those of the count, the sum and the bucket counts sent; the remainder and reset state are those of the group read. |
| SampleBuilder.GatherIgnoresOrder | retrieval/transform.go:214-270 | Any order of a group's samples at one time gives the same sum, count, reset time, buckets, reset state and remainder. |
| SampleBuilder.DistributionUnique | retrieval/transform.go:276-317 | With distinct bounds what was read determines the distribution. |
| SampleBuilder.GatherDistinct | retrieval/transform.go:214-270 | Samples that play different parts (one sum, one count, distinct bounds) are read into buckets with distinct bounds. |
| SampleBuilder.NextIgnoresOrder | retrieval/transform.go:112-122 | For two orders of one histogram's samples, whichever series comes first, next drafts the same point, leaves the same reset state and consumes as much. |
| SampleBuilder.GatherExtent | retrieval/transform.go:214-270 | How much the group loop consumes and whether it fails depends on series and times, never on values or reset state. |
| SampleBuilder.ExtentIsMaximal | retrieval/transform.go:214-270 | The group loop consumes the longest run of unlisted series and members of the histogram at the first member's time, and fails just when a failing lookup ends that run. |
| SampleBuilder.CallReadsOneHistogram | retrieval/transform.go:200-270 | A call on a histogram uses up exactly the samples in a row that are of no known series, or of the time of the first and of series with its base name and one of the three suffixes and with its labels but for `le` and `__name__`; it fails, using up nothing, if a failing lookup ends that row. |
| SampleBuilder.OneSampleUnlessHistogram | retrieval/transform.go:40-128 | On anything else a call uses up one sample, or nothing if the lookup fails, and fails exactly if the lookup does or an exported series is of no type that has points. |
| SampleBuilder.EmittedAsDrafted | retrieval/transform.go:130-134 | What goes out is the drafted point under the hash of its series, ending at the time of the first sample, and it goes out exactly if its interval extends or follows the last one of that hash, or there is none. |
| SampleBuilder.LookupDecides | retrieval/transform.go:44-62 | A number of a series that is unknown or not populated is passed over without feeding a tracker, but if its refresh fails so does the call, with nothing used up; a populated series feeds its tracker if it has one, exported or not. |
| SampleBuilder.NoPointOtherwise | retrieval/transform.go:40-128 | A NaN and a sample of a series that is unknown, not exported or of no type that has points draft nothing and leave the reset state alone. |
| SampleBuilder.Next | retrieval/transform.go:40-134 | What remains and whether there is an error; which sample goes to a tracker, as `LookupDecides` says; the drafted point and the reset state by metric type, whose values `Emission.CounterPoints`, `Emission.GaugePoints` and `ExposedHistogram.DraftedMoments` give; and which point goes out, of which `EmittedAsDrafted` says when and with what, and becomes the interval of its hash. |
| SampleBuilder.NextProgressesUnlessStuck | retrieval/transform.go:40-134 | An error-free call consumes something exactly when the first sample is not a mis-named histogram series; on such a series it consumes nothing and reports nothing. |
| SampleBuilder.StuckSample | retrieval/transform.go:214-270 | A series foo_total with histogram metadata filed under foo is stuck: next returns its input unchanged and no error. |
| SampleBuilder.FailureKeepsInput | retrieval/transform.go:40-134 | A failing call that keeps its input is down to a lookup that fails. |
| Draining.Drain | retrieval/manager.go:224-256 | On every record on which the loop ends, with refreshes and failing lookups given call by call and coming to an end, every sample is consumed within as many calls as samples plus scheduled turns. The loop appends exactly the points its calls make and the filter lets through, in order; trackers get one sample for each call on a tracked series; before each call it pauses by the number of calls that have failed; and the points of a series never overlap. |
| Draining.EndsIffNeverStuck | retrieval/manager.go:230-256 | The loop ends if and only if it never has a sample at its head that stays stuck under everything that is found out later, and then within that many calls; with such a sample what is left of the record never changes again. |
| Draining.LongTraceIffStuck | retrieval/manager.go:230-256 | A sequence of calls that meets such a sample never gets past it, and only such a sequence has more calls than there are samples and turns. |
| Draining.WellNamedEnds | retrieval/manager.go:230-256 | If no sample of the record is ever stuck, the loop ends. |
| Draining.QuietCall | retrieval/manager.go:230-256 | Once lookups no longer fail, a call consumes something if and only if the sample at the head is not stuck. |
| Draining.BackoffBounds | retrieval/manager.go:347-360 | Pauses start at ten milliseconds, double with each failure and stay at two seconds from the ninth on. |
| Tailer.Tailer.ReadTurns | tail/tail.go:165-208 | Read passes ended sources one segment at a time, stops at the first turn that yields bytes, an error or the end of the context, keeps segment index and offset accordingly, and waits once for each look at a missing segment: ten milliseconds first, then twice as long each time up to three seconds. |
| Tailer.OpenSegment | tail/tail.go:210-226 | In any listing the first number from the wanted one on decides; nothing is found exactly if all listed numbers are lower, and on an ascending listing a segment is found exactly if listed. |
| Tailer.RunKeepsInv | tail/tail.go:165-208 | In every run with a concurrent writer delivered and lost bytes add up to the reader's position, and nothing is delivered twice. |
| Tailer.TailingIsGapless | tail/tail.go:165-208 | What Read delivers is a prefix of checkpoint and segments in order exactly when no segment is written to between the reader's seeing its end and finding its successor. |
| Tailer.LateWriteIsLost | tail/tail.go:165-208 | A run that loses a byte. |
| Tailer.OffsetStep | tail/tail.go:143-152 | The offset goes back exactly when a source of which more than a segment's size was read is left. |
| Tailer.OffsetNeverBackIff | tail/tail.go:143-208 | Over every run the offset never goes back if and only if no source of which more than a segment's size was read is left. |
| Tailer.LongCheckpointGoesBack | tail/tail.go:50-208 | A run on which it does: a checkpoint longer than a segment is read and left. |
| Tailer.OffsetFollowsLog | tail/tail.go:103-152 | While sources are at most a segment's size the offset never decreases over a run, and on a real segment never exceeds the size of the log. |
| Tailer.SegmentOnlyAdvances | tail/tail.go:161-208 | Over every run the current segment only advances. |
| Pipeline.TailedSeriesSurvive | retrieval/manager.go:204-206 | The current segment that is handed to set bounds the segment a series record was read from, so no live series is ever collected. |
| Restart.RunReader | retrieval/manager.go:184-214 | By index into the log: all series records are applied, the sample records at or above the start offset are processed, each once and in order, those below it are counted as skipped, and what is saved last is the margin below the last record beyond the start offset at which a save is due. This is a run of the transition system: what is processed is what is then on its way, and what is saved is its saved offset. |
| Restart.ReaderRuns | retrieval/manager.go:184-214 | After every record the transition system, taking one step for each record, has on its way exactly what the reader has processed and has saved what it has saved. |
| Restart.ProcessedOrSkipped | retrieval/manager.go:208-213 | Processed and skipped records together are as many as there are sample records. |
| Restart.SavedIsLast | retrieval/manager.go:189-195 | What is saved after any number of records is the margin below the last one among them, beyond the start offset, at which a save was due; without one it is what was saved before. |
| Restart.StepIsGoodIff | retrieval/manager.go:184-310 | From a state in which no undelivered sample record lies below the offset of this run or the next, growing, booting, processing, delivering and crashing lead to such a state exactly if a save or a new record is in time. |
| Restart.SaveIsSafe | retrieval/manager.go:295-310 | With offsets that never go back, one save is in time exactly when what is on its way lies within the margin. |
| Restart.SafeIffInTime | retrieval/manager.go:184-310 | Over every run on every log: each save finds all undelivered sample records at or above the saved offset, and new ones are logged at or above it, if and only if from no state of the run reading on, crashing and restarting ends caught up with a sample record never attempted. |
| Restart.SafeIffSavesInTime | retrieval/manager.go:184-310 | On a log whose offsets never go back the condition is that each save finds what is on its way within the margin. |
| Restart.LongCheckpointLosesSample | retrieval/manager.go:184-310 | Where offsets go back, a run whose save finds nothing on its way and which is not safe. |
| Pipeline.LongCheckpointIsUnsafe | retrieval/manager.go:184-214 | Such offsets are those of a run of the tailer over a checkpoint longer than a segment by more than the margin. |
| Restart.LateSaveLosesSample | retrieval/manager.go:295-310 | A run whose save comes too early for its first sample, and so is not safe. |
| Restart.EverySampleIsCovered | retrieval/manager.go:266-310 | Over every sequence of runs, saves, crashes and restarts whose saves and records are in time each sample record has been attempted, is on its way, or will be read and not skipped. |
| Restart.CaughtUpMeansDelivered | cmd/stackdriver-prometheus-sidecar/main.go:536-555 | Then a run that has read everything and has nothing on its way has left no sample record undelivered, whatever crashes came before. |
| Aggregator.GetTracker | retrieval/aggregator.go:113-124 | A tracker is made exactly if some counter covers the series, with the measures of all that do, in order. |
| Aggregator.CoveringIff | retrieval/aggregator.go:113-124 | A measure is among those of a series exactly if some counter with that measure covers the series. |
| Aggregator.MatchFiltersets | retrieval/series_cache.go:505-524 | True exactly if all matchers of some filterset accept. |
| Aggregator.CounterTracker.NewPoint | retrieval/aggregator.go:128-165 | One point moves the tracker as specified, and each of its measures, in order, is given the same delta. |
| Aggregator.RecordedTelescopes | retrieval/aggregator.go:126-165 | Over every sequence of points the recorded total is the last counted value minus the first plus the values just before detected resets. |
| Aggregator.EveryMeasureTelescopes | retrieval/aggregator.go:126-165 | So what each measure of the tracker has been given in all is what the series grew by. |
| Aggregator.DeltasArePositive | retrieval/aggregator.go:144-165 | With non-negative values every recorded delta is positive. |
| Aggregator.IdlePointsChangeNothing | retrieval/aggregator.go:128-139 | NaN, late and repeated points change nothing. |
| Aggregator.RepeatChangesNothing | retrieval/transform.go:56-58 | A sample given to its tracker again at once, as by a repeated call of next, changes nothing. |
| ResourceMap.Translate | retrieval/resource_map.go:177-183 | Succeeds exactly when the match label, if any, is discovered, every key of the label map occurs and no two keys share a target; entry labels that are not used remain, in order. |
| ResourceMap.TryTranslate | retrieval/resource_map.go:197-223 | The two loops fill the resource label by label and keep the unused entry labels in order. |
| ResourceMap.UnusedIsFilter | retrieval/resource_map.go:197-223 | The entry labels that remain are those whose name is no key of the label map, each as often as it comes. |
| ResourceMap.PigeonHole | retrieval/resource_map.go:177-183 | As many filled labels as map entries means all keys found and no target shared. |
| ResourceMap.EntryLabelsOverride | retrieval/resource_map.go:197-223 | Each resource label is made of the entry label of its key if there is one, else of the discovered one. |
| ResourceMap.BestEffortTranslate | retrieval/resource_map.go:187-195 | With the match label discovered all targets are present and those that cannot be filled are empty; otherwise the result is nil, and a non-empty label map makes the call panic. |
| ResourceMap.GetResource | retrieval/series_cache.go:485-503 | With the flag the GKE map is used unless it is nil; else the first map that translates, and none is returned exactly if none translates. |

## Left out

- gRPC connections, authentication, HTTP, JSON, protobuf encoding, files and the status page: I/O over libraries.
- Logging, metric registration, flags and YAML.
- Clocks: a timer is a step that may happen at any time; sleeps have a length and no other effect.
- Rounding and overflow of floats and of int64 values, NaN inside a histogram, and `le` bounds that are NaN or -Inf.
- Fairness of the read-write lock: that a waiting writer keeps new readers out is not modelled, so all its runs are included.
- `Append` after `Stop`, `Stop` before `Start`, and a reshard before `Start` has returned.
- ShardController.QueueManager.CalculateDesiredShards: each Tick is one step there, with the interleavings in `Race`; what a non-finite float converts to is a parameter.
- SampleBuilder.Next: the format of a point's timestamps and the metric-name suffix helpers are left out.
- Draining.Drain: asks for a record on which the loop ends, characterised by `Draining.EndsIffNeverStuck`, and for no NaN inside a histogram; refreshes come between calls, not within one; cancellation in the middle of a record appears as a crash in `Restart.dfy`.
- SampleBuilder.GetEntry: what refreshes find is given; refreshing metadata, targets and metric types is mostly lookups.
- SeriesCache.SeriesCache.Set: the same; races between refresh and collector are outside the atomic steps.
- Histogram.Buckets.Sort: the library sort is modelled as the insertion sort it uses on short slices; the result is the same for every sort when bounds are distinct.
- Tailer.OffsetFollowsLog: `Size` is a function of the log; listing and stat-ing the segment files, and closing the tailer, are left out.
- StoreChunks.Store: the requests' contents are series and samples only.
- `targets/cache.go`, `metadata/cache.go` and the conversion functions of the resource maps: lookups that would only add easy members.

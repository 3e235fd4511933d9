# Verified model of the GPU external scaler's decision path

KEDA asks the scaler for one number per metric series. This project models how that number comes
about and proves what an operator may rely on: how raw device readings and engine scrapes become a
fresh value, and how the scale-down damper turns a run of fresh values into the values KEDA sees.

`dafny verify dfyconfig.toml` checks everything.

| file | what it holds |
|---|---|
| `Clock.dfy` | Go instants and 64-bit durations, with wrap-around and saturation |
| `Damper.dfy`, `DamperRuns.dfy` | `applyCooldown` on one series and on the table; guarantees over whole runs |
| `Isolation.dfy` | series do not interfere; other traffic can be erased |
| `OrderStatistics.dfy`, `Aggregation.dfy`, `AggregationLaws.dfy` | counting and ranks; the aggregation loops and the in-place sort; laws over every list |
| `GoStrings.dfy`, `Exposition.dfy` | the string functions and the Prometheus line parser; grammar and round trips |
| `Http.dfy`, `Triton.dfy`, `TritonRuns.dfy`, `Vllm.dfy` | the two engine clients; conservation laws; presence flags |
| `Profiles.dfy`, `Config.dfy`, `ConfigLaws.dfy` | metric types, profiles and `parseMetadata`; what each key does, which maps are accepted and what the others are told |
| `Readings.dfy`, `ReadingLaws.dfy` | `getMetricValue`: from configuration and world to a fresh value; what each route yields, by the names an operator writes |
| `Service.dfy`, `ServiceLaws.dfy`, `ServiceRuns.dfy`, `ServiceWitness.dfy` | concurrent requests as a two-step state machine; what one request answers; guarantees over every interleaving; one run as a witness |
| `Scaler.dfy` | the scaler object with its maps of clients and series, proved against the functions above |
| `GpuLists.dfy` | the SLURM and Flux GPU lists |

## How the model is built

* A request has two steps. `Service.Begin` parses the metadata and reads a fresh value outside the
  lock; `Service.Finish` commits it under the lock, where the damper's clock is read. A run is any
  sequence of such steps of any requests. `Scaler.GPUExternalScaler` holds the same steps as methods
  on mutable maps of objects; its ghost log records the calls of `ApplyCooldown`, and its validity
  ties the stored states to that log. Calls with a non-positive cooldown take no lock in the source;
  they are logged where they happen and shown to have no effect on anyone else.
* The collector, the HTTP endpoints and every clock reading are inputs (`Readings.World`, the `now`
  parameters). `strconv.ParseFloat` and the endpoint URL check are arbitrary deterministic functions
  (`Config.Env`), and the theorems hold for all of them. Only `Exposition.LabelBlockExact` and
  `Exposition.LabelledLineExact` assume that the text parser tells two texts apart and, where they
  say so, that it rejects texts with a closing brace, and the run in `ServiceWitness` that it reads
  three numerals.
* Both engine clients carry the same line parser (pkg/triton/client.go:176-201,
  pkg/vllm/client.go:122-147); it is modelled once.
* Floats are reals, the percentile levels exactly 0.95 and 0.99. `sort.Float64s` is an in-place
  insertion sort; only its result matters. `MetricType` and aggregation names are datatypes with an
  `Unrecognized` case that keeps any other text, so that the default branches exist and can be shown
  unreachable.

## What turned out differently from the documentation

* **Profiles carry a cooldown that never takes effect** (pkg/profiles/profiles.go:27,
  pkg/scaler/server.go:218-227): `Readings.ProfileCooldownIgnored`,
  `Readings.TrainingCooldownDiffers`.
* **Very long cooldowns are not honoured.** `time.Duration(n) * time.Second` is exact up to
  9223372036 seconds. Beyond that it wraps, to a negative window (no damping) or to a shorter one:
  `Clock.CooldownWindowExact`, `Clock.LongCooldowns`.
* **The spacing guarantee needs a clock past Go's zero instant.** A scale-down stamped with the zero
  instant starts no window, and after one stamped earlier a second one at the zero instant ends the
  window. A scale-down keeps all later ones at a distance exactly when its own stamp is past the
  zero instant: `DamperRuns.SpacingExact`.
* **A call answers to its own cooldown only**, because the cooldown is not part of the key. Inside
  another call's window on the same key, a call with a zero cooldown is answered with its lower
  value, and so is one with a short positive cooldown, which lowers the baseline as well:
  `Isolation.UndercutsExactly` says exactly when, `Isolation.OthersWindowUndercut` is a witness.
* **The line parser reads less than the Prometheus text exposition format** (section "Text format
  details") **allows.** A label value may contain `}`; values are then read correctly exactly when
  the label block has none (`Exposition.LabelBlockExact`). White space is required only where tokens
  would merge; after a brace-free block the parser reads a value exactly when there is white space
  before the block or after it (`Exposition.GapExact`).
* **Activity polls consume counter growth.** All callers of a Triton endpoint share one baseline, so
  the rates one of them is given cover only its own intervals. `ServiceRuns.RequestsShareTheGrowth`
  says exactly when some of the callers are told everything; `ServiceWitness.PollTakesGrowth` is a
  run in which they are not.
* **One model's restart can hide another's requests.** The count is a sum over models, and only the
  sum is compared: `TritonRuns.ModelResetsHideGrowth` says exactly when nothing is hidden.

## Model

| member | source | states |
|---|---|---|
| Clock.CooldownWindowExact | pkg/scaler/server.go:136 | a configured cooldown becomes exactly that many nanoseconds if and only if it is at most 9223372036 s; for every setting the window is positive if and only if the remainder of its nanoseconds modulo 2^64 is between 1 and the largest duration, and then it is that remainder |
| Clock.LongCooldowns | pkg/scaler/server.go:136 | one second beyond the limit gives a negative window, 18446744074 s a positive one of less than a second |
| Clock.SecondsBetween | pkg/triton/client.go:116 | between two readings of an advancing clock the seconds, times 10^9, are the nanoseconds between them, up to the longest duration |
| DamperRuns.HistoryRefinement | pkg/scaler/server.go:347-374 | after any history the stored baseline and the last report are the maximum fresh value since the latest admitted drop (or the first call), and the stored time is that drop's |
| DamperRuns.ReportIsPeak | pkg/scaler/server.go:347-374 | every single report of a run is that maximum at its own call |
| DamperRuns.DroppedIffAdmitted | pkg/scaler/server.go:354-374 | a report falls below its predecessor exactly when the history definition admits a drop there |
| DamperRuns.ScaleDownsAreSpaced | pkg/scaler/server.go:360-374 | after a reported scale-down stamped past the zero instant every later one is at least its own cooldown away, whatever the clock reads in between, backward jumps included |
| DamperRuns.SpacingExact | pkg/scaler/server.go:360-374 | over all continuations of a run, every later scale-down keeps that distance from a given one if and only if the clock read past the zero instant at it |
| DamperRuns.ScaleDownsSpan | pkg/scaler/server.go:360-374 | n scale-downs with cooldowns of at least C, the first stamped past the zero instant, span at least (n-1)*C |
| DamperRuns.ScaleUpNeverDelayed | pkg/scaler/server.go:354-368 | a report is never below the fresh value, a non-falling value passes unchanged, a suppressed one repeats the previous report |
| DamperRuns.SuppressedExactly | pkg/scaler/server.go:334-338 | a value is suppressed if and only if it falls and the last reported scale-down was not stamped with the zero instant and lies less than the call's cooldown ago |
| DamperRuns.DampingIsIdempotent | pkg/scaler/server.go:339-375 | feeding a damper its own reports at the same times and cooldowns reproduces them and every intermediate state |
| Isolation.KeysDoNotInterfere | pkg/scaler/server.go:339-352 | over any log, a key's state and replies are those of a damper that saw only the key's own damped calls |
| Isolation.LastReply | pkg/scaler/server.go:339-375 | a damped call joins its own key's history and is answered with that history's last report |
| Isolation.ErasingOthersIsInvisible | pkg/scaler/server.go:339-352 | logs that agree on a key's damped calls agree on its state and replies |
| Isolation.OthersCanBeErased | pkg/scaler/server.go:340-352 | deleting all other keys and all zero-cooldown calls changes nothing for a key |
| Isolation.UndercutsExactly | pkg/scaler/server.go:339-374 | after any log a call is answered below its key's last damped report if and only if its value is below it and its own cooldown is non-positive or has passed since the key's last scale-down, unless that one was stamped with the zero instant; other calls' cooldowns play no part |
| Isolation.OthersWindowUndercut | pkg/scaler/server.go:339-374 | one run as a witness, for an undamped call and for a short positive cooldown, which lowers the baseline too |
| OrderStatistics.RankUnique | pkg/scaler/server.go:587-604 | a list has at most one reading of each rank |
| OrderStatistics.RankMonotone | pkg/scaler/server.go:591-604 | raising readings cannot lower the k-th smallest |
| OrderStatistics.RankSurvives | pkg/scaler/server.go:587-590 | if at least k readings survive a deletion, one of them is as high as the k-th smallest was |
| Aggregation.SortFloat64s | pkg/scaler/server.go:592-594 | the array ends up ascending, as a function of its old contents |
| Aggregation.Percentile | pkg/scaler/server.go:591-604 | the sorted copy's element at the clamped rank, the readings unmodified |
| Aggregation.Aggregate | pkg/scaler/server.go:544-585 | the value of the method on the readings, every branch including the empty list and the default |
| AggregationLaws.AggregationNames | pkg/scaler/server.go:279-286 | exactly the six names are aggregations, each its own |
| AggregationLaws.SumAddsUp | pkg/scaler/server.go:566-577 | the sum of one reading is that reading, the sums of two groups add up, and the sum is the mean times the number of devices |
| AggregationLaws.AggregateByName | pkg/scaler/server.go:544-604 | on every non-empty list, under each of the six names, the value is the one that the name promises: greatest or least reading, all readings added up, that divided by their number, or the reading of rank ceil(95n/100) or ceil(99n/100) in whole numbers |
| AggregationLaws.AscendingSorts | pkg/scaler/server.go:592-594 | the sorted copy is ascending and a permutation |
| AggregationLaws.ClampsUnreachable | pkg/scaler/server.go:596-602 | for a level in (0,1] and a non-empty list neither index clamp is taken |
| AggregationLaws.PercentileIsNearestRank | pkg/scaler/server.go:587-604 | the percentile occurs in the list, at least ceil(p*n) readings are at most it and fewer are below it |
| AggregationLaws.NearestRankIsPercentile | pkg/scaler/server.go:587-604 | conversely, the reading of that rank is the percentile |
| AggregationLaws.DeviceOrderIrrelevant | pkg/scaler/server.go:544-604 | every accepted aggregation is invariant under permuting the devices |
| AggregationLaws.DefaultBranchDependsOnOrder | pkg/scaler/server.go:582-584 | the default branch is not |
| AggregationLaws.AggregateMonotone | pkg/scaler/server.go:544-604 | if no GPU reads lower, no aggregation does |
| AggregationLaws.AggregationsAreOrdered | pkg/scaler/server.go:544-604 | min <= avg <= max and min <= p95 <= p99 <= max on every non-empty list |
| AggregationLaws.OutlierRobust | pkg/scaler/server.go:587-590 | after deleting any n/20 readings one at least as high as p95 remains, and after any n/100 one as high as p99 |
| AggregationLaws.PercentileIsMaxExactly | pkg/scaler/server.go:578-604 | p95 equals max on all lists of length n if and only if n < 20, p99 if and only if n < 100 |
| AggregationLaws.AggregationComposes | pkg/scaler/server.go:550-577 | aggregating per-node maxima, minima or sums equals aggregating all devices |
| AggregationLaws.MeanWeighsEveryDevice | pkg/scaler/server.go:566-571 | the mean composes when groups are weighted by their device counts |
| AggregationLaws.MeanComposesExactly | pkg/scaler/server.go:566-571 | the mean of two nodes' means is the mean of all devices if and only if the nodes have equally many devices or equal means |
| AggregationLaws.MeanDoesNotCompose | pkg/scaler/server.go:566-571 | an instance: an idle one-device node and a busy two-device node |
| GoStrings.FieldsConcat | pkg/triton/client.go:192 | fields of a concatenation that breaks at white space are the fields of its parts |
| GoStrings.JoinSplit | pkg/slurm/slurm.go:108 | splitting yields separator-free parts that join to the string |
| GoStrings.AtoiItoa | pkg/slurm/slurm.go:110 | every 64-bit integer survives printing and parsing |
| GoStrings.AtoiExact | pkg/scaler/server.go:270-276 | an integer is parsed exactly from an optional sign, leading zeros and its printed magnitude, within 64 bits |
| Exposition.LineGrammar | pkg/triton/client.go:176-201 | `parseLine` returns a sample if and only if the line is of the stated grammar and its value text parses to the value |
| Exposition.SampleRoundTrip | pkg/triton/client.go:176-201 | parsing undoes printing, with or without labels, timestamp, leading white space and white space on either side of the label block |
| Exposition.BodyRoundTrip | pkg/triton/client.go:146-155 | a body of samples, comments, blanks and malformed lines reads back as exactly its samples, in order |
| Exposition.LabelBlockExact | pkg/triton/client.go:180-187 | for a text parser that tells two texts apart, every value text after a label block is read correctly if and only if the block contains no closing brace; white space is assumed after the block, or before it with a text parser that rejects braces |
| Exposition.GapExact | pkg/triton/client.go:187-195 | after a brace-free block a parseable value is read if and only if there is white space before the block or after it |
| Exposition.LabelledLineExact | pkg/triton/client.go:176-201 | both at once, for a text parser that tells two texts apart and rejects braces: all value texts are read if and only if the block is brace-free and has white space on at least one side |
| Exposition.MissingGapLosesSample | pkg/triton/client.go:187-195 | the glued instance: with white space on neither side of the block there is no sample |
| Exposition.LineOrderIrrelevant | pkg/triton/client.go:146-165 | reordering lines changes no sum |
| Triton.ParseMetrics | pkg/triton/client.go:142-174 | counters are sums over all label sets, the gauge is the last value |
| Triton.PrintedBodyCounters | pkg/triton/client.go:137-174 | a printed body parses to the per-counter sums of its samples and the last gauge value |
| Triton.BodiesAddUp | pkg/triton/client.go:139-165 | concatenating bodies adds the counters, reordering leaves them unchanged |
| Triton.Client.ApplyDerived | pkg/triton/client.go:107-135 | fills the derived values from the previous sample and makes the new one the baseline |
| Triton.Client.Scrape | pkg/triton/client.go:81-99 | a failed scrape leaves the history alone, a successful one appends exactly its sample |
| TritonRuns.RateByClock | pkg/triton/client.go:116-125 | with counter growth and clock progress, the rate times the nanoseconds between the two scrapes (at most the longest duration) is the growth times 10^9; otherwise it is zero |
| TritonRuns.NanosecondConservation | pkg/triton/client.go:113-134 | over any run, rates times nanoseconds plus the growth in intervals without clock progress equal the positive counter increments times 10^9 plus what rates over unmeasurably long intervals overstate; nothing is overstated if and only if no growth fell into such an interval |
| TritonRuns.RatesAreExact | pkg/triton/client.go:116-125 | every rate times its nanoseconds is its interval's growth times 10^9 if and only if every growth came with clock progress of at most 9223372036854775807 ns |
| TritonRuns.RateConservation | pkg/triton/client.go:113-134 | over any run, rates times the seconds between the clock readings (at most the longest duration) plus the growth in intervals without clock progress equal the positive counter increments |
| TritonRuns.RateConservationExact | pkg/triton/client.go:118-125 | the rates alone account for all growth if and only if the clock advanced whenever the counter did |
| TritonRuns.RateIsLastMinusFirst | pkg/triton/client.go:113-134 | without resets that sum is last minus first |
| TritonRuns.WaitConservation | pkg/triton/client.go:113-121 | average waits times inference increments equal the queue-time growth of intervals with new inferences, under arbitrary resets |
| TritonRuns.WaitGap | pkg/triton/client.go:113-129 | without queue resets the gap to the total is the queue time of intervals without new inferences, and not negative |
| TritonRuns.DerivedNeverNegative | pkg/triton/client.go:101-129 | no derived value is ever negative; the first scrape and a reset derive zero |
| TritonRuns.ReadersShareTheGrowth | pkg/scaler/server.go:388-401 | over any run what one reader of a shared client is told, what the others are told and the unclocked growth add up to the total growth; one reader is told all of it if and only if every counter advance was reported to that reader, with clock progress |
| TritonRuns.ToldEverythingExactly | pkg/scaler/server.go:388-401 | when the clock advances between scrapes: if and only if the counter never advanced in an interval that another reader closed |
| TritonRuns.PositiveOfSum | pkg/triton/client.go:137-141 | the positive part of a sum is at most the sum of positive parts, with equality if and only if all terms point the same way |
| TritonRuns.ModelResetsHideGrowth | pkg/triton/client.go:113-141 | with the counter a sum over models, the reported rates never exceed what the models grew, and equal it if and only if in every interval all models moved one way and the clock advanced whenever their sum did |
| TritonRuns.HiddenByReset | pkg/triton/client.go:126-141 | an instance: one model restarts while another serves ten requests, and no growth is seen |
| Vllm.ParseMetrics | pkg/vllm/client.go:89-120 | presence flags and last values, both KV-cache spellings |
| Vllm.GaugeTellsTheTruth | pkg/vllm/client.go:93-118 | a gauge is present exactly when some line carries it, with the value of the last such line |
| Vllm.NeverInventsAReading | pkg/vllm/client.go:29-43 | the same for all four gauges of a scrape |
| Vllm.Client.Scrape | pkg/vllm/client.go:73-85 | every failure is an error, success gives the body's gauges |
| Profiles.MetricTypeOf | pkg/profiles/profiles.go:33-58 | the conversion keeps the text, so distinct texts stay distinct |
| Profiles.MetricTypeNames | pkg/profiles/profiles.go:35-58 | the name of each of the fourteen metric types |
| Profiles.Get | pkg/profiles/profiles.go:106-223 | every profile's metric type is valid |
| Config.ParseMetadata | pkg/scaler/server.go:206-332 | overwriting field by field with early returns gives exactly the first complaint in order, or the field-wise resolved configuration |
| ConfigLaws.EmptyMetadata | pkg/scaler/server.go:207-216 | the configuration of a trigger without metadata |
| ConfigLaws.UnknownKey | pkg/scaler/server.go:206-332 | a key outside the thirteen known ones changes nothing |
| ConfigLaws.PlainKeys | pkg/scaler/server.go:229-313 | adding the metric name, the aggregation or an endpoint sets that one field and no other |
| ConfigLaws.IntegerKeys | pkg/scaler/server.go:269-306 | so does adding a device index, a cooldown or a poll interval |
| ConfigLaws.FloatKeys | pkg/scaler/server.go:239-268 | adding a threshold sets it; a target takes effect only without a shorthand, the utilization shorthand only without the memory shorthand, and both shorthands set the metric type too |
| ConfigLaws.MetricTypeKey | pkg/scaler/server.go:232-238 | a metric type takes effect only without a shorthand |
| ConfigLaws.ProfileKey | pkg/scaler/server.go:218-227 | a profile sets metric name, type, target and threshold, each only where the map's own keys do not |
| ConfigLaws.ProfileTable | pkg/profiles/profiles.go:106-217 | metric name, target, activation threshold and metric type of the ten profiles |
| ConfigLaws.AcceptedExactly | pkg/scaler/server.go:206-332 | a map is accepted if and only if every present key holds what it may hold and the endpoints are given where needed and allowed where given |
| ConfigLaws.FirstComplaint | pkg/scaler/server.go:206-332 | a map is rejected if and only if one of the sixteen complaints is true of it, and with the first true one in the order of precedence |
| Readings.AcceptedIsClosed | pkg/scaler/server.go:206-332 | every accepted map has a valid metric type, gpuIndex >= -1, cooldown >= 0, a named aggregation, a validated endpoint for engine metrics, and never reaches a default branch |
| Readings.ProfileCooldownIgnored | pkg/scaler/server.go:214-227 | without an override every accepted map gets 60 s; that is its profile's own cooldown if and only if the profile's is 60 |
| Readings.TrainingCooldownDiffers | pkg/profiles/profiles.go:173-183 | the training profile alone is accepted with 60 s instead of its own 300 |
| Readings.VLLMReadingExact | pkg/scaler/server.go:452-486 | a vLLM reading succeeds exactly when the body carried the gauge, and is its last value; otherwise it is an error |
| ReadingLaws.LoadFields | pkg/scaler/server.go:514-521 | the readings of two devices under `gpu_utilization`, `memory_utilization` or `memory_used_mib` differ as that field does, whatever the others hold, and zero reads as zero |
| ReadingLaws.SensorFields | pkg/scaler/server.go:527-530 | likewise for `temperature` and `power_draw` |
| ReadingLaws.LinkFields | pkg/scaler/server.go:531-538 | likewise for the four PCIe and NVLink types |
| ReadingLaws.MemoryPercent | pkg/scaler/server.go:522-526 | under `memory_used_percent` the reading times the total is 100 times the used memory; it is zero if and only if used or total is zero, and at most 100 if no more is used than there is |
| ReadingLaws.SelectedDevice | pkg/scaler/server.go:413-421 | with a device index a device metric is that one device's reading, or the collector's error |
| ReadingLaws.AllDevices | pkg/scaler/server.go:423-437 | without one it is the value that the aggregation's name promises of all devices' readings; a collector failure or a node without devices is an error |
| ReadingLaws.VLLMRoute | pkg/scaler/server.go:404-407 | a vLLM metric is the last value of its gauge in the body of its endpoint, as a percentage for the KV cache, whatever the devices read; a failed scrape or an absent gauge is its error |
| ReadingLaws.TritonScrape | pkg/scaler/server.go:488-493 | a failed Triton scrape is its error and leaves all histories alone; a successful one adds the body's two counter sums and the clock reading to its own endpoint's history only |
| ReadingLaws.RateRoute | pkg/scaler/server.go:488-512 | a request rate times the nanoseconds since the previous scrape is the growth of the count times 10^9; zero without growth, clock progress or a previous scrape |
| ReadingLaws.WaitRoute | pkg/scaler/server.go:488-512 | a queue wait in milliseconds times 1000 times the new inferences is the new queue time; zero without either |
| ServiceLaws.ActiveExactly | pkg/scaler/server.go:65-104 | both activity calls answer active if and only if the fresh value lies strictly above the threshold that the map, its profile or the default asks for; bad metadata and failed reads are answered with their error |
| ServiceLaws.IdleNodeIsInactive | pkg/scaler/server.go:65-104 | with default metadata a node of idle devices is inactive under every aggregation |
| ServiceLaws.BusyDeviceIsActive | pkg/scaler/server.go:65-104 | under the default aggregation one device above zero makes it active |
| ServiceLaws.SpecExactly | pkg/scaler/server.go:108-122 | a spec query is answered from the metadata alone, with the target of the memory shorthand, the utilization shorthand, the map, its profile or 80, in this order |
| ServiceLaws.MetricIsNamedAsSpec | pkg/scaler/server.go:108-146 | a metrics request is answered under the name that a spec query with the same metadata announces, in any world |
| ServiceRuns.MetricsAreDamped | pkg/scaler/server.go:124-146 | in any interleaving a metrics request with accepted metadata and a successful reading waits until its own commit; that commit enters the log with its key, reading and cooldown, and is answered with the reading if the cooldown is not positive, otherwise with the greatest value of its series since the latest admitted drop |
| ServiceRuns.KeysAgreeExactly | pkg/scaler/server.go:153-175 | two requests share a key if and only if namespace, name, metric name, type, aggregation, device index and both endpoints agree |
| ServiceRuns.OtherSeriesLeaveItAlone | pkg/scaler/server.go:153-175 | however a run continues, while only requests that differ in one of those fields commit, a series' answers and stored state stay |
| ServiceRuns.KeyDeterminesReading | pkg/scaler/server.go:148-175 | the fresh value and the scrape state depend on the configuration through the key only |
| ServiceRuns.EqualKeysMeasureAlike | pkg/scaler/server.go:148-175 | requests with equal keys read the same value in the same world |
| ServiceRuns.BaselinesHoldOneQuantity | pkg/scaler/server.go:124-146 | in every interleaving each commit of a series stems from an earlier metrics request with that key, whose value is what the key itself reads there |
| ServiceRuns.RunConsistent | pkg/scaler/server.go:124-146 | in every interleaving the table and all answers are those of the damper on the commits in lock order |
| ServiceRuns.AnswersAreIsolated | pkg/scaler/server.go:124-146 | in every interleaving a key's answers are those of a damper that sees only its own damped commits |
| ServiceRuns.OtherTrafficIsInvisible | pkg/scaler/server.go:124-146 | runs that agree on a key's damped commits answer it alike, whatever else they served |
| ServiceRuns.OtherRequestsLeaveNoTrace | pkg/scaler/server.go:65-133 | activity and spec calls, rejected metadata and failed reads never touch the damper |
| ServiceRuns.AnsweredScaleDownsAreSpaced | pkg/scaler/server.go:360-374 | in any interleaving, scale-downs answered for a key keep the later commit's cooldown from every earlier one stamped past the zero instant |
| ServiceRuns.ScrapesAreKindBlind | pkg/scaler/server.go:388-401 | an endpoint's client has seen exactly the successful scrapes of that endpoint, whichever calls made them |
| ServiceRuns.ServiceRateConservation | pkg/scaler/server.go:488-512 | in any interleaving the rates derived for an endpoint plus the growth between scrapes without clock progress equal its counter growth, in seconds and, up to unmeasurably long intervals, in nanoseconds of the clock; the rates alone do so if and only if the clock advanced whenever the counter did |
| ServiceRuns.ServiceWaitConservation | pkg/scaler/server.go:488-512 | in any interleaving the waits derived for an endpoint account for exactly the queue time grown while inferences advanced; without queue resets the rest of the growth is that of intervals without a new inference |
| ServiceRuns.RequestsShareTheGrowth | pkg/scaler/server.go:388-401 | in any interleaving, for any choice of requests, what they were told, what the others were told and the unclocked growth add up to the counter growth; they were told all of it if and only if every advance was read by one of them, with clock progress |
| ServiceWitness.PollTakesGrowth | pkg/scaler/server.go:388-401 | one run: of a growth of two between two metrics requests, an activity poll in between leaves them one |
| ServiceRuns.RateReadingIsReported | pkg/scaler/server.go:495-501 | the rate a caller is given is that of the sample its scrape appended |
| ServiceRuns.WaitReadingIsReported | pkg/scaler/server.go:495-501 | the wait a caller is given is that of the sample its scrape appended, in milliseconds |
| Scaler.CooldownState.Damp | pkg/scaler/server.go:354-374 | one damped call on a known series, in place |
| Scaler.GPUExternalScaler.ApplyCooldown | pkg/scaler/server.go:339-375 | the reply and the whole new table, with no other series affected |
| Scaler.GPUExternalScaler.GetTritonClient | pkg/scaler/server.go:394-401 | one client per endpoint, reused; a new one starts without history |
| Scaler.GPUExternalScaler.GetVLLMMetricValue | pkg/scaler/server.go:452-486 | the selected gauge, or an error when absent |
| Scaler.GPUExternalScaler.GetTritonMetricValue | pkg/scaler/server.go:488-512 | the derived value in the metric's unit, and the endpoint's new history |
| Scaler.GPUExternalScaler.GetMetricValue | pkg/scaler/server.go:403-438 | the fresh value on each of the three routes and every error path |
| Scaler.GPUExternalScaler.IsActive | pkg/scaler/server.go:65-78 | active if and only if the fresh value is strictly above the threshold the metadata asks for, and every error reply; the damper is not consulted |
| Scaler.GPUExternalScaler.StreamTick | pkg/scaler/server.go:93-104 | one tick sends the same decision, against the same threshold, and nothing when the read fails |
| Scaler.GPUExternalScaler.GetMetricSpec | pkg/scaler/server.go:108-122 | the name and target, reading nothing |
| Scaler.GPUExternalScaler.GetMetrics | pkg/scaler/server.go:124-146 | every successful read extends the log by exactly its own commit and is answered, under the configured metric name, with the last report of its series' damped history (with the reading itself if undamped); every other request is answered with its error and leaves the log alone |
| GpuLists.EntriesRoundTrip | pkg/slurm/slurm.go:108-109 | trimmed comma-free entries survive padding, joining and splitting |
| GpuLists.DevicesRoundTrip | pkg/slurm/slurm.go:103-115 | joining printed integers with commas, any white space around them, and parsing gives the list back |
| GpuLists.UuidsRoundTrip | pkg/slurm/slurm.go:120-132 | likewise for comma-free MIG identifiers |
| GpuLists.ListsConcatenate | pkg/slurm/slurm.go:103-132 | both parsers distribute over comma concatenation of any two strings |
| GpuLists.IntegersArePicked | pkg/slurm/slurm.go:108-113 | the device list is an order-preserving subsequence of the entries |
| GpuLists.MigsArePicked | pkg/slurm/slurm.go:125-130 | so is the MIG list, at the entries that begin with `MIG-` |
| GpuLists.ListsAreDisjoint | pkg/slurm/slurm.go:101-119 | no entry is picked by both |
| Slurm.JobContext.VisibleDevices | pkg/slurm/slurm.go:103-115 | the list function on the job's string |
| Slurm.JobContext.MIGUUIDs | pkg/slurm/slurm.go:120-132 | the list function on the job's string |
| Flux.JobContext.VisibleDevices | pkg/flux/flux.go:76-88 | the same function as SLURM's, so both agree on every string |
| Flux.JobContext.MIGUUIDs | pkg/flux/flux.go:94-106 | the same function as SLURM's, so both agree on every string |

## Left out

- Scaler.GPUExternalScaler.StreamTick: the ticker, the poll interval and a failing send are not modelled; only the tick's reading and decision are.
- Text is a sequence of characters; byte encodings and invalid UTF-8 are not modelled.
- Float rounding, NaN and infinities: readings and levels are reals.
- Device discovery, NVML, MIG enumeration and the mock collector: foreign calls; a collector is any pair of answers.
- HTTP transport, timeouts and the scanner's line splitting and length limit: a response is a status and a list of lines.
- `ParseFloat`, URL parsing and the address checks of the endpoint validation: arbitrary functions.
- Go maps without their own lock (`vllmClients`, `tritonClients`) under concurrent insertion: get-or-create is one step.
- gRPC plumbing, logging, error texts, health and readiness probes, Prometheus export, the `gpu-metrics` command, environment lookup: they do not affect the decision.
- Profile descriptions and stabilization windows: never read by the scaler.
- Multi-node aggregation: not implemented in the repository; only the composition laws of the aggregations are.

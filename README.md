# mkt_monitor in Dafny

A model of the monitoring core of mkt_monitor, with proofs about it.

mkt_monitor measures network bandwidth on a host. It watches market-data integrity events and serves both to a web dashboard.

- **Producer side.**
  - src/xdp_bandwidth.py samples the byte and packet counters of an XDP program.
  - It turns two readings into a `Sample`.
  - It buffers samples and pushes them as one window message once the push interval is over.
  - src/traffic_peak.py samples per-interface counters.
  - It prints the rates of each interface, keeps running peaks per interface, and raises `ALERT` and `PEAK↑` flags.
- **Backend.**
  - backend/subscriber.py receives multipart messages and decodes the topic and the JSON payload.
  - backend/store.py (`MetricStore`) keeps, per series key:
    - a deque of bandwidth samples;
    - a deque of integrity events, plus a deque of alerts for events that were not ok.
  - It prunes all of these by a retention time.
  - It answers the dashboard's queries: snapshots, the key list, filtered and limited event series, the newest sample, and legacy bucket views.
  - backend/collector.py (`TrafficCollector`) folds ticks into fixed-width buckets that keep the per-window maximum, in a history deque of bounded length.
  - backend/config.py computes the number of history buckets and parses the alert threshold (`"1.5G"`, `"300k"`, numbers).
  - backend/app.py:
    - parses and discovers the `name=path` multi-dashboard configuration;
    - keeps the `WebsocketHub` list of connections that broadcasts reach.

## How the model is organised

The model has one Dafny module per source file, plus small helper modules for the Python built-ins the code relies on:

- `Wrappers`: `Option` and `Result`.
- `Text`: `strip`, `lower`, `split`, `join` and string order.
- `Numbers`: `int(text)`, `float(text)`, `str(int)` and truncation.
- `PyValue`: Python values, truthiness, `or` chains, `str()`, and the `_as_float`/`_as_int` conversions.
- `Sorting`: the stable `sorted`.
- `Utf8`: decoding with the strict, ignore and replace handlers.

How the source's form is kept:

- **Objects that update fields are classes.** These are the metric store, the collector, the XDP monitor, the push gate, the peak monitor and the websocket hub. Their methods have `modifies` clauses, and each states its new state as a function of the old one.
- **Loops are methods.** Their `ensures` tie the result to a specification function. Lemmas state what that function means.
- **Pure code is functions.** This covers payload parsing, keys, timestamps, thresholds, slugs and frame decoding.
- **Parameters stand in for the environment.**
  - The clock: `now`, `nowWall`, `nowMonotonic` and `elapsed`.
  - The kernel counters: the counter readings and snapshots.
  - The filesystem: a `resolve` function, the list of globbed files, and whether the main configuration exists.
  - The JSON parser: `parseJson`.

## Model

| member | source | states |
|---|---|---|
| Config.AggregationSettings.HistoryBuckets | backend/config.py:22-24 | the bucket count fails exactly when the window is zero, with ZeroDivisionError |
| Config.QuotientFloor | backend/config.py:24 | for a non-negative count and a positive window, truncating the true quotient equals integer division |
| Config.HistoryBucketsExact | backend/config.py:22-24 | positive settings give `history_hours * 3600 / window_seconds` buckets |
| Config.HistoryBucketsCover | backend/config.py:22-24 | the buckets cover no more than the history, and one more bucket would exceed it |
| Config.Multiplier | backend/config.py:57-58 | exactly K, M, G and T have a factor |
| Config.ParseThreshold | backend/config.py:47-69 | failures are ValueError, and only text, lists and dicts can fail |
| Config.ThresholdBlank | backend/config.py:48-55 | None and blank text give 0 |
| Config.ThresholdSuffix | backend/config.py:56-64 | text ending in a suffix letter, in either case, is the stripped rest times the factor, truncated; an unparsable rest raises ValueError |
| Config.ThresholdPlain | backend/config.py:56-68 | text without a suffix is its number truncated, or ValueError |
| Config.ThresholdRoundTrip | backend/config.py:52-64 | writing `n` followed by a suffix letter parses back to `n` times the letter's factor |
| Config.ThresholdPlainRoundTrip | backend/config.py:65-66 | writing `n` without a suffix parses back to `n` |
| Collector.HistoryCapacity | backend/collector.py:41 | the deque length is the bucket count; a zero window gives ZeroDivisionError and a negative count gives ValueError |
| Collector.HistoryCapacityExact | backend/collector.py:41 | positive settings give a deque of `history_hours * 3600 // window_seconds` buckets |
| Collector.HistoryCapacityNegative | backend/collector.py:41 | a negative window no longer than the history is rejected with ValueError |
| Collector.BucketBounds | backend/collector.py:98-101 | for a positive span a sample lies in its own window, `start_ts <= ts < start_ts + span` |
| Collector.BucketIdMonotone | backend/collector.py:99 | a later timestamp never gets an earlier window |
| Collector.OpenBucket | backend/collector.py:109-115 | a new bucket has one sample, the sample's rate as its maximum, and the window's bounds |
| Collector.Absorb | backend/collector.py:116-119 | absorbing a sample counts it once more and keeps the larger of the two rates, which is one of them; the window stays the same |
| Collector.DequeAppendKeepsNewest | backend/collector.py:108 | a bounded deque keeps the newest `maxlen` items in order: the oldest is dropped when full, and nothing is kept when `maxlen` is 0 |
| Collector.EmptyValid | backend/collector.py:41-46 | the fresh collector satisfies the timeline invariant |
| Collector.StepLatest | backend/collector.py:104 | every handled sample becomes the latest sample, and a current bucket exists afterwards |
| Collector.StepSameBucket | backend/collector.py:116-119 | a sample of the current window changes only the current bucket: one more sample, the larger rate; the history stays the same |
| Collector.StepNewBucket | backend/collector.py:106-115 | a sample of another window retires the current bucket into the history and opens a one-sample bucket; the buckets are the newest of the old ones plus the new one |
| Collector.StepSameBuckets | backend/collector.py:116-119 | after a sample of the current window, `buckets()` lists the same buckets, with the last one having absorbed the sample |
| Collector.StepValid | backend/collector.py:97-119 | handling a sample keeps the invariant: the history never outgrows its deque, and every bucket holds a sample and spans its own window |
| Collector.IncreasingLast | backend/collector.py:68-73 | in increasing order, the last bucket has the largest window |
| Collector.StepChronological | backend/collector.py:97-119 | while timestamps do not go back, the buckets stay in window order with no window twice, and the current bucket is the latest sample's window |
| Collector.TrafficCollector.New | backend/collector.py:37-47 | construction fails exactly when the history deque rejects its length, with that error; otherwise the collector is empty and valid |
| Collector.TrafficCollector.constructor | backend/collector.py:37-47 | the collector holds the window and the deque length, and an empty timeline |
| Collector.TrafficCollector.HandleSample | backend/collector.py:97-119 | the state after `_handle_sample` is one step of the timeline, and the invariant is kept |
| Collector.TrafficCollector.GetBuckets | backend/collector.py:68-73 | the history oldest first, then the current bucket |
| Collector.TrafficCollector.LatestSample | backend/collector.py:62-66 | the last handled sample, or none |
| XdpBandwidth.ParseBool | src/xdp_bandwidth.py:193-199 | only bools and text parse; anything else raises ValueError |
| XdpBandwidth.ParseBoolIgnoresSpace | src/xdp_bandwidth.py:197-198 | surrounding whitespace does not change the result |
| XdpBandwidth.ParseBoolRender | src/xdp_bandwidth.py:193-198 | `str(b)` parses back to `b` |
| XdpBandwidth.CheckMonitorArgs | src/xdp_bandwidth.py:212-215 | the arguments are accepted exactly when the interval is positive and the mode is auto, drv or skb; otherwise ValueError |
| XdpBandwidth.Delta | src/xdp_bandwidth.py:295-296 | a delta is never negative, at least the counter's growth, and either 0 or that growth |
| XdpBandwidth.RateTimesElapsed | src/xdp_bandwidth.py:298-299 | a rate times its elapsed time gives back the amount |
| XdpBandwidth.SampleOfMeaning | src/xdp_bandwidth.py:277-301 | a sample's deltas are never negative and equal the growth of counters that did not go back; its interval is at least 1e-9 and the monotonic elapsed time; its rates are the deltas per second |
| XdpBandwidth.DeltasTelescope | src/xdp_bandwidth.py:292-296 | while a counter never goes back, the deltas of successive samples add up to its whole growth |
| XdpBandwidth.XdpBandwidthMonitor.New | src/xdp_bandwidth.py:205-227 | construction fails with ValueError exactly when the argument checks fail; otherwise the monitor is unattached and keeps its arguments |
| XdpBandwidth.XdpBandwidthMonitor.constructor | src/xdp_bandwidth.py:220-227 | the arguments are stored; there are no readings yet and the monitor is unattached |
| XdpBandwidth.XdpBandwidthMonitor.Start | src/xdp_bandwidth.py:264-265 | once attached, the first readings and the clock become the previous ones |
| XdpBandwidth.XdpBandwidthMonitor.TakeSample | src/xdp_bandwidth.py:277-301 | gives RuntimeError with nothing changed when not started; otherwise the sample from the previous and the new readings, and the new readings become the previous ones |
| XdpBandwidth.Peak | src/xdp_bandwidth.py:476-477 | the maximum bounds every value and is one of them |
| XdpBandwidth.TotalConcat | src/xdp_bandwidth.py:472-473 | summing a buffer in two parts counts each sample once |
| XdpBandwidth.MeanTimesCount | src/xdp_bandwidth.py:495-497 | an average times the sample count gives back the sum |
| XdpBandwidth.WindowOf | src/xdp_bandwidth.py:471-501 | the window counts every buffered sample, spans from the first sample's timestamp to the last's, and carries the send time |
| XdpBandwidth.WindowDuration | src/xdp_bandwidth.py:478-480 | the duration is the longer of the time span and the last sample's interval |
| XdpBandwidth.WindowPeaks | src/xdp_bandwidth.py:476-501 | the maxima bound every sample's rates, and some sample reaches the byte-rate maximum |
| XdpBandwidth.WindowAverages | src/xdp_bandwidth.py:474-497 | the averages are the summed rates over the number of samples |
| XdpBandwidth.EmitWhen | src/xdp_bandwidth.py:462-469 | a window is sent exactly when there is a publisher and a sample, and the call is forced or the push interval is over |
| XdpBandwidth.EmitWaits | src/xdp_bandwidth.py:462-469 | an unforced call that sends nothing changes nothing |
| XdpBandwidth.EmitForced | src/xdp_bandwidth.py:462-522 | a forced call always leaves the buffer empty |
| XdpBandwidth.EmitSends | src/xdp_bandwidth.py:471-523 | a sent window covers the whole buffer, the buffer is emptied, and the push time becomes the send time |
| XdpBandwidth.WindowsSplit | src/xdp_bandwidth.py:471-522 | sending a buffer as two windows loses no bytes and no samples |
| XdpBandwidth.PushGate.constructor | src/xdp_bandwidth.py:457-458 | the gate starts with an empty buffer at the loop's start time |
| XdpBandwidth.PushGate.Add | src/xdp_bandwidth.py:532-537 | the sample is buffered last |
| XdpBandwidth.PushGate.MaybeEmit | src/xdp_bandwidth.py:460-523 | what is sent and the state left behind are those of `maybe_emit` |
| TrafficPeak.BeforeNul | src/traffic_peak.py:115 | the bytes before the first NUL: a prefix with no NUL, followed by a NUL when shorter than the buffer |
| TrafficPeak.DecodeIfname | src/traffic_peak.py:114-116 | an interface name is never empty |
| TrafficPeak.DecodeIfnameEmpty | src/traffic_peak.py:116 | an empty buffer, or one that starts with NUL, reads as `<unknown>` |
| TrafficPeak.DecodeIfnameRoundTrip | src/traffic_peak.py:114-116 | a name written into a NUL-padded buffer is read back unchanged |
| TrafficPeak.FilterSnapshot | src/traffic_peak.py:230-232 | with filters, exactly the filtered interfaces are kept, with their readings; without filters, nothing changes |
| TrafficPeak.Least | src/traffic_peak.py:242 | the smallest name of a non-empty set |
| TrafficPeak.SortedNamesSpec | src/traffic_peak.py:242 | `sorted(ifaces)` lists every name once, in strictly increasing order |
| TrafficPeak.Raise | src/traffic_peak.py:262-268 | corrected loop: the new peak is at least the stored peak (or 0.0) and the rate, and is one of them |
| TrafficPeak.RaiseAgrees | src/traffic_peak.py:262-268 | for an interface that has a peak, the loop's conditional update stores the larger value |
| TrafficPeak.Peaked | src/traffic_peak.py:255-269 | corrected loop: after the update the interface has all three peaks |
| TrafficPeak.PeakedKeys | src/traffic_peak.py:255-269 | corrected loop: the update adds only the interface to each peak dict and leaves the previous readings and `first_loop` alone |
| TrafficPeak.BitRateSpec | src/traffic_peak.py:251-252 | a rate times the elapsed time gives back the bits |
| TrafficPeak.BitRateSign | src/traffic_peak.py:251-252 | over a positive time a rate is never negative, and it is 0.0 for no bytes |
| TrafficPeak.StepRates | src/traffic_peak.py:243-253 | the rates are the bits moved per direction over the elapsed time, never negative, and 0.0 for an interface seen for the first time; the total is their sum |
| TrafficPeak.ByteDeltaSpec | src/traffic_peak.py:243-249 | a counter that went back counts as no traffic; otherwise the delta is its growth |
| TrafficPeak.StepFirstLoop | src/traffic_peak.py:255-274 | on the first tick every peak is set to the current rate and no PEAK flag is raised |
| TrafficPeak.StepLaterLoop | src/traffic_peak.py:260-275 | corrected loop: on a later tick each peak rises to the larger of the old peak and the rate and never falls; PEAK is raised exactly when a positive total beats the old total peak |
| TrafficPeak.StepFlags | src/traffic_peak.py:271-286 | ALERT exactly when a positive threshold is set and the total reaches it; the report shows the stored peaks |
| TrafficPeak.StepRemembers | src/traffic_peak.py:290-291 | after an interface step its previous counters are the current readings, `(0, 0)` when absent, and it has all three peaks |
| TrafficPeak.StepOthers | src/traffic_peak.py:242-291 | other interfaces' peaks and counters are left alone |
| TrafficPeak.AsWrittenAgrees | src/traffic_peak.py:255-291 | the loop as written equals the corrected step on the first tick, or when the interface already has its peaks |
| TrafficPeak.AsWrittenNewInterfaceCrashes | src/traffic_peak.py:245-286 | as written, an interface that first appears after the first tick raises KeyError when its peaks are printed |
| TrafficPeak.StepsReports | src/traffic_peak.py:242-291 | one report per interface, in the order processed |
| TrafficPeak.StepsFirstLoop | src/traffic_peak.py:242-291 | processing interfaces leaves `first_loop` alone |
| TrafficPeak.StepsPeaksRise | src/traffic_peak.py:260-269 | corrected loop: past the first tick no total peak falls, and none disappears |
| TrafficPeak.StepsPeaksKnown | src/traffic_peak.py:255-269 | corrected loop: every processed interface ends with its three peaks |
| TrafficPeak.StepsPrevKnown | src/traffic_peak.py:290-291 | every processed interface ends with its current readings as its previous counters |
| TrafficPeak.PassSkips | src/traffic_peak.py:224-240 | a tick with no elapsed time or no data changes nothing and reports nothing |
| TrafficPeak.PassUnfold | src/traffic_peak.py:230-293 | corrected loop: a tick with data runs the filtered interfaces in sorted order, then ends the first tick |
| TrafficPeak.PassReports | src/traffic_peak.py:237-242 | a tick with data reports on each filtered interface once, in increasing name order |
| TrafficPeak.PassRemembers | src/traffic_peak.py:242-293 | corrected loop: after a tick with data the first tick is over, and every filtered interface has its peaks and its readings as previous counters |
| TrafficPeak.PassPeaksRise | src/traffic_peak.py:218-293 | corrected loop: past the first tick a tick never lowers a total peak |
| TrafficPeak.PeakMonitor.constructor | src/traffic_peak.py:204-215 | empty dicts and `first_loop = True` |
| TrafficPeak.PeakMonitor.UpdatePeaks | src/traffic_peak.py:255-269 | corrected loop: the peak dicts after the update, and `new_peak` |
| TrafficPeak.PeakMonitor.CurrentRates | src/traffic_peak.py:243-253 | the rates from the current and the stored previous readings |
| TrafficPeak.PeakMonitor.StepInterface | src/traffic_peak.py:242-291 | corrected loop: the in-place loop body gives the state and report of one step |
| TrafficPeak.PeakMonitor.Tick | src/traffic_peak.py:218-293 | corrected loop: one pass of the sampling loop: its reports and the new dicts |
| StoreEntries.CoerceTimestamp | backend/store.py:32-40 | no timestamp exactly when the value is not a positive number; values of 10**12 or more are read as milliseconds; every result is positive |
| StoreEntries.CoerceTimestampNonNumeric | backend/store.py:18-36 | None, lists, dicts and non-numeric text give no timestamp |
| StoreEntries.CoerceTimestampMillisText | backend/store.py:37-39 | a millisecond count given as text becomes seconds |
| StoreEntries.CoerceTimestampSeconds | backend/store.py:32-40 | a result below the millisecond range coerces to itself |
| StoreEntries.FirstTimestamp | backend/store.py:164-170 | the first present timestamp, or the default when none is present |
| StoreEntries.IntegrityTimestampPrecedence | backend/store.py:164-170 | timestamp_ms comes first, then period_end_ts, tp and timestamp, then the clock |
| StoreEntries.IntegrityFarFutureFails | backend/store.py:164-171 | a time in seconds past the year 9999 and below 10**12 stays seconds, and `_isoformat` raises |
| StoreEntries.XdpKeySplits | backend/store.py:84-86 | host and interface split back out of the key when neither holds `|` |
| StoreEntries.XdpMillisTimestampFails | backend/store.py:88-90 | a millisecond time under `timestamp` with no `timestamp_iso` is not converted to seconds, and `_isoformat` raises |
| StoreEntries.Metrics | backend/store.py:88 | fails exactly when `metrics` is truthy and not a dict; otherwise the dict, or empty |
| StoreEntries.AliasRateFirstTruthy | backend/store.py:92-102 | the first alias with a truthy value decides the rate |
| StoreEntries.AliasRateAllFalsy | backend/store.py:92-102 | with no truthy alias the rate is 0.0 |
| StoreEntries.XdpEntryOf | backend/store.py:83-121 | fails when no `timestamp_iso` is given and `datetime` cannot hold the timestamp, else exactly when `metrics` is a truthy non-dict (AttributeError); otherwise the entry's key parts, both alias rates and the timestamp (or the clock) |
| StoreEntries.IntegrityKey | backend/store.py:150-162 | the key is never empty |
| StoreEntries.IntegrityKeyParts | backend/store.py:150-162 | host and interface make the key when either is known, exchange and symbol only when neither is, and the source or `integrity` when nothing is |
| StoreEntries.BatchSource | backend/store.py:195-196 | iterating fails exactly for a truthy number or True; only list items can be dicts |
| StoreEntries.BatchItemOf | backend/store.py:199-214 | an item without a timestamp of its own takes its parent's; its status is lower-cased |
| StoreEntries.BatchItemsFromDicts | backend/store.py:196-215 | one item per dict, each built from a dict of the input; other values are skipped |
| StoreEntries.CollectBatchItems | backend/store.py:194-215 | the loop gives the batch items, or stops with the error of the first item time `datetime` cannot hold |
| StoreEntries.CountNotOk | backend/store.py:224 | the failure count is at most the item count, and 0 exactly when every item is ok |
| StoreEntries.IntegrityHeader | backend/store.py:142-231 | `is_ok` exactly when the lower-cased status is `ok`; the key is the identity key; the batch fields are empty |
| StoreEntries.WithBatch | backend/store.py:216-226 | a batch entry keeps its items, with the given size and failure count or their computed defaults |
| StoreEntries.BuildIntegrityEntry | backend/store.py:142-231 | the entry-building code, with its loop and its early exits, gives the specified entry or error |
| StoreEntries.IntegrityEntryShape | backend/store.py:164-231 | fails exactly when `datetime` cannot hold the event time, or, for a batch, when the items are a number or True (TypeError) or some item time is out of range; otherwise a non-batch event has an empty batch, a batch event one item per dict, the key is non-empty and `is_ok` means status `ok` |
| StoreTables.Pruned | backend/store.py:61-63 | pruning drops only a prefix of entries older than the cutoff, and the survivor at the front is not older |
| StoreTables.PrunedTwice | backend/store.py:61-63 | pruning at two cutoffs is pruning once at the later one |
| StoreTables.PrunedKeepsNewest | backend/store.py:61-63 | an entry appended at or after the cutoff survives as the newest entry |
| StoreTables.PruneDeque | backend/store.py:61-63 | the deque loop gives the pruned series |
| StoreTables.Append | backend/store.py:124-236 | appending puts the entry last under its key, and appends a new key to the key order; other keys stay the same |
| StoreTables.AppendTable | backend/store.py:124-236 | appending keeps the table invariant |
| StoreTables.PruneKeysMembers | backend/store.py:70-79 | a key survives pruning exactly when its series has an entry at or after the cutoff |
| StoreTables.PruneKeysDistinct | backend/store.py:70-79 | surviving keys stay distinct |
| StoreTables.PruneTableValid | backend/store.py:70-79 | a pruned table is a table: distinct keys, naming exactly the non-empty series |
| StoreTables.PruneSeriesTwice | backend/store.py:70-79 | pruning the dict twice is pruning it once at the later cutoff |
| StoreTables.PruneKeysTwice | backend/store.py:70-79 | pruning the key order twice is pruning it once at the later cutoff |
| StoreTables.PruneKey | backend/store.py:71-74 | one key's series is pruned, and the key is deleted from the dict and the key order once emptied |
| StoreTables.PruneTable | backend/store.py:70-79 | the per-dict loop gives the pruned key order and dict |
| Store.PruneContentsValid | backend/store.py:65-80 | pruning keeps both dicts tables |
| Store.PruneContentsTwice | backend/store.py:65-239 | pruning at an older payload's timestamp after a newer one removes nothing more |
| Store.AddXdpKeepsEntry | backend/store.py:123-127 | a sample just added survives the pruning that follows, as the newest sample of its listed key |
| Store.AddIntegrityKeepsEntry | backend/store.py:233-239 | an event just added survives as the newest of its key; a not-ok event is also the newest alert; an ok event leaves the alerts as pruning alone does |
| Store.PruneAll | backend/store.py:65-80 | the three pruning loops give the pruned contents |
| Store.MetricStore.constructor | backend/store.py:46-59 | an empty store with the given settings |
| Store.MetricStore.PruneLocked | backend/store.py:65-80 | contents pruned at the reference time; nothing changes when retention is off |
| Store.MetricStore.AddXdpPayload | backend/store.py:83-132 | the key and the entry, stored and then pruned; an out-of-range timestamp without `timestamp_iso`, or a bad `metrics`, stores nothing and raises |
| Store.MetricStore.AddIntegrityPayload | backend/store.py:135-253 | the key, the entry and whether it alerted, stored, alerted and then pruned; an out-of-range event or item time, or a non-iterable batch, stores nothing and raises |
| Store.MetricStore.TakeSnapshot | backend/store.py:256-263 | everything the store holds, after pruning at `now` |
| Store.MetricStore.XdpSnapshot | backend/store.py:265-268 | the bandwidth series in key order, after pruning |
| Store.MetricStore.IntegritySnapshot | backend/store.py:270-273 | the integrity series in key order, after pruning |
| Store.MetricStore.Alerts | backend/store.py:275-278 | the alerts oldest first, after pruning |
| Store.MetricStore.IntegrityKeys | backend/store.py:280-300 | the key rows, sorted by host and interface, after pruning |
| Store.MetricStore.IntegritySeries | backend/store.py:302-344 | the matching events in timestamp order, the newest `limit` of them, after pruning |
| Store.MetricStore.LatestXdpEntry | backend/store.py:346-364 | none exactly when nothing is stored; otherwise the key whose newest sample has the highest timestamp, and the last such key on a tie |
| Store.MetricStore.XdpBuckets | backend/store.py:366-445 | the sorted bucket views, without pruning or changing anything |
| StoreQueries.EventTypesMembers | backend/store.py:290 | a type is listed exactly when some entry has it |
| StoreQueries.Dedup | backend/store.py:290 | a list without repeats that has the same elements |
| StoreQueries.TypesOfSpec | backend/store.py:290-296 | the types of a key strictly ascend, and are exactly its entries' non-empty types |
| StoreQueries.KeyRecordsOfTable | backend/store.py:284-298 | on a table: one row per key, in key order, from the newest entry |
| StoreQueries.HostInterfaceOrder | backend/store.py:299 | comparing `(hostname, interface)` is a strict weak order |
| StoreQueries.CollectKeyRecords | backend/store.py:280-300 | the loop and the sort give the sorted rows |
| StoreQueries.KeyRecordsSorted | backend/store.py:284-299 | the rows are a sorted, stable permutation of the per-key rows |
| StoreQueries.MatchingMembers | backend/store.py:315-339 | the rows are exactly the matching entries of the listed keys' series |
| StoreQueries.CollectMatching | backend/store.py:315-339 | the nested loops give the matching rows in dict and series order |
| StoreQueries.Limited | backend/store.py:342-343 | a positive limit keeps the newest `limit` rows; otherwise all rows are kept |
| StoreQueries.SeriesQuery | backend/store.py:315-343 | filter, sort by timestamp, then limit |
| StoreQueries.SeriesQuerySorted | backend/store.py:341-343 | the rows ascend by timestamp |
| StoreQueries.SeriesQueryRows | backend/store.py:315-343 | each row is a matching entry of its key's series |
| StoreQueries.SeriesQueryComplete | backend/store.py:341-343 | without a limit every matching entry is returned, with ties in dict and series order |
| StoreQueries.LatestEntry | backend/store.py:353-364 | none exactly when every series is empty; otherwise the highest newest timestamp, with the last key winning a tie |
| StoreQueries.WindowOf | backend/store.py:372 | AttributeError exactly when the window is truthy and not a dict |
| StoreQueries.WindowDuration | backend/store.py:376 | the duration when positive, otherwise the non-negative span from start to end |
| StoreQueries.BucketViewOf | backend/store.py:372-442 | the maximum comes from `max_bps`; a non-zero average stays as it is; a zero average is recomputed from the byte total only when there are bytes and a duration |
| StoreQueries.BucketWithoutWindow | backend/store.py:372-376 | without a window the bucket is the sample's instant, with its own average |
| StoreQueries.BucketFromDuration | backend/store.py:373-400 | a window with a start and a positive duration lasts that long, and a zero average is recomputed from the bytes |
| StoreQueries.BucketFromEnd | backend/store.py:373-376 | a window with a start and an end spans from start to end |
| StoreQueries.MapOkFails | backend/store.py:370-442 | the whole query fails when any sample fails |
| StoreQueries.MapOkSucceeds | backend/store.py:370-442 | when every sample succeeds there is one view per sample, in order |
| StoreQueries.AppendViews | backend/store.py:371-442 | the inner loop appends the series' views, or stops at the first failure |
| StoreQueries.CollectBuckets | backend/store.py:368-445 | the nested loops and the sort give the sorted views |
| StoreQueries.BucketsSpec | backend/store.py:444-445 | on success one view per sample, ascending by start, with ties in dict order |
| PyValue.AsFloat | backend/store.py:18-22 | `float(value)`, or the default on TypeError or ValueError |
| PyValue.AsInt | backend/store.py:25-29 | `int(value)`, or the default on TypeError or ValueError |
| PyValue.FirstTruthyPicks | backend/store.py:92-102 | an `or` chain gives the first truthy value, and the last value only when none is truthy |
| PyValue.TextNumbersRoundTrip | backend/store.py:18-29 | a rendered integer reads back as that integer through both conversions |
| Sorting.SortStable | backend/store.py:299-444 | `sorted` keeps the elements tied with any given one in their original order |
| Sorting.SortSorted | backend/store.py:299-444 | `sorted` gives a sorted list |
| Sorting.SortPermutes | backend/store.py:299-444 | `sorted` gives a permutation |
| Numbers.ParseFloatRender | backend/config.py:61-66 | `float(str(i)) == i` |
| Numbers.TruncBounds | backend/config.py:51-66 | `int(x)` drops less than one in magnitude, toward zero |
| Text.SplitOnce | backend/app.py:47 | the parts around the first `=`: the first has no `=`, and the parts joined around `=` give back the text |
| StoreEntries.PairSplits | backend/store.py:160 | joining two parts with `|` gives `a|b`, which splits back into the two parts when neither holds `|` |
| Utf8.DecodeEncode | backend/subscriber.py:111-115 | encoded text decodes back, under every error handler |
| Utf8.StrictFailsOnlyOnIllFormed | backend/subscriber.py:111-115 | where strict decoding succeeds, decoding with bad bytes ignored or replaced gives the same text |
| Subscriber.DecodeFrames | backend/subscriber.py:102-120 | the only error is UnicodeDecodeError |
| Subscriber.DecodeNoFrames | backend/subscriber.py:104-105 | no frames give an empty topic and no payload |
| Subscriber.DecodeFails | backend/subscriber.py:114-115 | decoding fails exactly when there is a data frame and it is not UTF-8 |
| Subscriber.DecodeOneFrame | backend/subscriber.py:107-120 | a single frame is the data, with an empty topic |
| Subscriber.DecodeManyFrames | backend/subscriber.py:110-112 | only the first frame (the topic, decoded with bad bytes dropped) and the last (the data) count |
| Subscriber.DecodeBadJson | backend/subscriber.py:116-118 | JSON that does not parse keeps the topic and gives no payload |
| Subscriber.DecodeRoundTrip | backend/subscriber.py:110-120 | a topic and a JSON text sent as two UTF-8 frames are received as sent |
| Subscriber.DecodeSingleRoundTrip | backend/subscriber.py:107-120 | a JSON text sent alone is received with the empty topic |
| App.Names | backend/app.py:53 | the names of the entries, one per entry, in order |
| App.ParseConfigMap | backend/app.py:39-61 | the loop gives the specified parse, stopping at the first refused chunk |
| App.ParseChunksStops | backend/app.py:41-58 | once a chunk is refused, later chunks do not matter |
| App.ParseChunksSpec | backend/app.py:41-58 | the parse succeeds exactly when every non-blank item has `=`, a non-empty allowed name not taken before, and a path that resolves; the entries then follow the items |
| App.ConfigMapValid | backend/app.py:39-61 | a successful parse has at least one entry, with non-empty, allowed, distinct names |
| App.ConfigMapSpec | backend/app.py:39-61 | success exactly when the items are good and there is at least one; the entries follow the items |
| App.ConfigMapBlank | backend/app.py:42-60 | a list with only blank chunks is refused as empty |
| App.DropPrefix | backend/app.py:70-71 | the prefix is dropped exactly when the text starts with it |
| App.SlugShape | backend/app.py:69-73 | an alias has no `_`, no upper-case letter, and no `-` at either end |
| App.SlugRoundTrip | backend/app.py:69-73 | a file named `config-<t>`, where `t` is already in alias form, has the alias `t` |
| App.DiscoverConfigMap | backend/app.py:64-93 | the loop gives the specified discovery, stopping at the first repeated alias |
| App.AddFilesStops | backend/app.py:66-80 | once an alias repeats, later files do not matter |
| App.AddFilesSpec | backend/app.py:66-80 | discovery succeeds exactly when no two kept files share an alias; the entries are the kept files' aliases and paths, in order |
| App.DiscoveredMapValid | backend/app.py:64-93 | a discovered map is empty or has at least two entries, with distinct, kept names |
| App.DiscoveredPrimaryFirst | backend/app.py:82-88 | with the main configuration present and neither `primary` nor `default` found, `primary` goes first |
| App.DiscoveredTooFew | backend/app.py:90-93 | fewer than two entries give the empty map |
| App.RemoveFirst | backend/app.py:118-123 | removing an unlisted connection changes nothing |
| App.RemoveFirstSpec | backend/app.py:121 | removing a listed connection cuts out its first occurrence |
| App.RemoveFirstCount | backend/app.py:121 | removing a listed connection takes out exactly one occurrence of it and nothing else |
| App.AddRemove | backend/app.py:112-123 | adding a connection and removing it gives the list back |
| App.RemoveEachDistinct | backend/app.py:139-142 | in a list without repeats, taking the stale connections out one by one removes exactly them |
| App.BroadcastKeepsDelivered | backend/app.py:125-142 | in a list without repeats, after a broadcast exactly the connections whose send succeeded remain, in order |
| App.WebsocketHub.constructor | backend/app.py:108-110 | no connections |
| App.WebsocketHub.Add | backend/app.py:112-116 | the accepted connection is listed last |
| App.WebsocketHub.Remove | backend/app.py:118-123 | the first occurrence is taken out, or nothing changes |
| App.WebsocketHub.Broadcast | backend/app.py:125-142 | the connections after taking out, one by one, each target whose send failed |

## Left out

- **I/O is not modelled.** This covers the kernel side (BPF programs, attach, `read_totals`, `snapshot` over BPF tables, `confirm_iface`, `ensure_memlock_limit`), the ZeroMQ sockets and the subscriber's receive loop, the websocket `accept` and `send_json`, and all printing and logging. Clocks, sleeps, counter readings and send outcomes are parameters.
- **Concurrency is not modelled.** This covers threads, locks and asyncio, and `stop`, `start` and `last_error` of the collector. Every method runs alone.
- **Broadcast is modelled without concurrency.** In the source, connections added or removed while the sends run could differ from the snapshot of targets; the model does not capture that.
- **Floating point is not modelled.** Rates and timestamps are exact reals, so `float` rounding, `inf` and `nan` are not modelled, and neither are float parsing of `inf`/`nan` or underscores.
- **`int()` of text is partly modelled.** Surrounding whitespace and a sign are accepted as in Python; underscores between digits (`"1_000"`) and non-ASCII digits are not.
- **`str()` of a float is not fully modelled.** It is rendered only for integral values below 10**16; other floats render as a fixed placeholder.
- **Formatting is left out.** This covers the text of ISO timestamps (`_isoformat`, `iso_timestamp`), `format_rate`, the Mbps/MBps fields of a stored sample and the printed report line. Those are formatting with no logic to prove.
- StoreEntries.IsoRepresentable: `_isoformat` is modelled only by whether it returns, for times from year 1 to year 9999. Every failure is one error, `TimestampOutOfRange`: which of ValueError, OverflowError or OSError CPython raises is not modelled, nor is the rounding to microseconds within half a microsecond of either bound.
- **`lower()` and `upper()` are ASCII only.** Python's full Unicode case mapping is not modelled.
- **The filesystem is a parameter.**
  - `_resolve_config_path` is a `resolve` function, with no result standing for FileNotFoundError.
  - `_discover_config_map` receives its files already globbed, sorted and filtered by `is_file`, and receives whether the main configuration exists.
  - `load_config` (YAML parsing and its section checks) is not modelled.
- **`json.loads` is a parameter.** A missing result stands for JSONDecodeError.
- **Parts of app.py are not modelled:** the FastAPI routes of app.py, `_create_dashboard_app`, `_create_multi_dashboard_app` and `create_app`.
  - These call `cfg.retention`, `store.set_integrity_retention` and loop over `add_integrity_payload`'s 3-tuple as a list of updates; none of these match the code they call. The model follows the store's code.
- **Parts of the XDP monitor are not modelled.** This covers `run_cli`'s argument and configuration checks, `resolve_ifaces` (`if_nametoindex`), and `main`'s argument checks and duration limit. Also left out are the monitor's `stop` and `stream`, the attach-mode fallback in `start`, and the payload's echo fields (hostname, interface, mode, config).
- **`xdp_points` and `integrity_points` are stored but never used** by the store, so the model does not use them either.
- **Retention is by time only.** The store prunes by age, keys integrity events by host, interface, exchange or symbol, and the hub drops a websocket whose send fails; nothing bounds a series by count.
- TrafficPeak.PeakMonitor.Tick, TrafficPeak.PeakMonitor.StepInterface, TrafficPeak.PeakMonitor.UpdatePeaks and the lemmas about `Raise`, `Peaked`, `Step` and `LoopPass` model the corrected loop of the Findings row, which always stores the larger of the old peak (or 0.0) and the rate. The loop as written stores a peak only when the rate beats `.get(ifname, 0.0)` and then raises KeyError for an interface first seen after the first tick; `TrafficPeak.AsWrittenAgrees` shows the two agree everywhere else, and `TrafficPeak.AsWrittenNewInterfaceCrashes` exhibits the crash.
- **`Collector.Bucket` is a value.** A retired bucket is never changed again, so the bucket object's identity is not observable.
- **App.BroadcastKeepsDelivered is proved only for lists without repeats.** With a connection listed twice, `remove` takes out one occurrence per failure. `Broadcast` itself is stated for every list.
- **XdpBandwidth.WindowAverages is stated through `Mean`.** `MeanTimesCount` relates it back to the sums and omits the `if total_samples else 0.0` branch, which a non-empty window never takes.

## Findings

| source | as written | input that shows it | evidently intended | confidence | as-written member | corrected member |
|---|---|---|---|---|---|---|
| src/traffic_peak.py:260-286 | after the first tick, a peak is stored only when a rate beats 0.0, and the report then reads `peak_rx[ifname]` | an interface that first appears in a later tick: it has no previous counters, so its rates are 0.0, no peak is stored, and the print raises KeyError | every printed interface has its peaks, the larger of the old peak (or 0.0) and the rate | not executed | TrafficPeak.AsWrittenNewInterfaceCrashes | TrafficPeak.StepLaterLoop |

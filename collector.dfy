/**
 * TrafficCollector of backend/collector.py: the fixed-width bucket timeline
 * that turns the monitor's ticks into per-window maxima. The current bucket
 * is updated in place while samples fall into its window; a sample of another
 * window retires it into a history deque bounded by the configured number of
 * buckets. The lock and the collector thread are left out (every method runs
 * alone).
 */
module Collector {
  import opened Wrappers
  import opened Numbers
  import opened PyValue
  import opened Config
  import opened XdpBandwidth

  /** One window of the timeline and the largest rate seen in it. */
  datatype Bucket = Bucket(bucketId: int, startTs: int, endTs: int, maxBps: real, sampleCount: int)

  /**
   * `deque(maxlen=agg_cfg.history_buckets)`: the bucket count, ZeroDivisionError
   * for a zero window, or ValueError when the count is negative.
   */
  function HistoryCapacity(agg: AggregationSettings): (r: Result<nat, Exception>)
    ensures r.Ok? <==> agg.HistoryBuckets().Ok? && agg.HistoryBuckets().value >= 0
    ensures r.Ok? ==> r.value == agg.HistoryBuckets().value
    ensures r.Err? ==> r.error == if agg.windowSeconds == 0 then ZeroDivisionError else ValueError
  {
    match agg.HistoryBuckets()
    case Err(e) => Err(e)
    case Ok(n) => if n < 0 then Err(ValueError) else Ok(n)
  }

  /** Positive settings give a deque of `history_hours * 3600 // window_seconds` buckets. */
  lemma HistoryCapacityExact(agg: AggregationSettings)
    requires agg.historyHours >= 0 && agg.windowSeconds > 0
    ensures HistoryCapacity(agg) == Ok(agg.historyHours * 3600 / agg.windowSeconds)
  {
    HistoryBucketsExact(agg);
  }

  /** Dividing a positive count by a negative window no longer than it truncates to at most -1. */
  lemma QuotientNegative(n: int, w: int)
    requires w < 0 && n >= -w
    ensures Trunc(Quotient(n, w)) <= -1
  {
    var d := (-w) as real;
    var p := -Quotient(n, w);
    assert p * d == n as real;
    assert (p - 1.0) * d == n as real - d >= 0.0;
  }

  /** A negative window at least as long as the history gives a negative count, which the deque rejects. */
  lemma HistoryCapacityNegative(agg: AggregationSettings)
    requires agg.windowSeconds < 0 && agg.historyHours * 3600 >= -agg.windowSeconds
    ensures HistoryCapacity(agg) == Err(ValueError)
  {
    QuotientNegative(agg.historyHours * 3600, agg.windowSeconds);
  }

  /** `int(timestamp // span)`: the window a timestamp falls into. */
  function BucketId(ts: real, span: int): int
    requires span != 0
  {
    (ts / span as real).Floor
  }

  /** The first second of window `id`. */
  function BucketStart(id: int, span: int): int {
    id * span
  }

  /** For a positive span, a timestamp lies in its own window: `start_ts <= ts < end_ts`. */
  lemma BucketBounds(ts: real, span: int)
    requires span > 0
    ensures var start := BucketStart(BucketId(ts, span), span);
      start as real <= ts < (start + span) as real
  {
    var id := BucketId(ts, span);
    var w := span as real;
    var q := ts / w;
    var below, above := q - id as real, id as real + 1.0 - q;
    assert 0.0 <= below && 0.0 < above;
    assert q * w == ts;
    assert below * w >= 0.0;
    assert above * w > 0.0;
    assert BucketStart(id, span) as real == id as real * w == ts - below * w;
    assert (BucketStart(id, span) + span) as real == (id as real + 1.0) * w == ts + above * w;
  }

  /** Later timestamps never fall into earlier windows. */
  lemma BucketIdMonotone(ts1: real, ts2: real, span: int)
    requires span > 0 && ts1 <= ts2
    ensures BucketId(ts1, span) <= BucketId(ts2, span)
  {
    var w := span as real;
    assert ts2 / w - ts1 / w == (ts2 - ts1) / w;
  }

  /** The bucket a sample opens: one sample, whose rate is the maximum. */
  function OpenBucket(id: int, span: int, bps: real): (b: Bucket)
    ensures b.bucketId == id && b.sampleCount == 1 && b.maxBps == bps
    ensures b.startTs == BucketStart(id, span) && b.endTs == b.startTs + span
  {
    var start := BucketStart(id, span);
    Bucket(id, start, start + span, bps, 1)
  }

  /** A sample of the bucket's own window: one more sample, and the larger of the two rates. */
  function Absorb(b: Bucket, bps: real): (r: Bucket)
    ensures r.sampleCount == b.sampleCount + 1
    ensures r.maxBps >= b.maxBps && r.maxBps >= bps && (r.maxBps == b.maxBps || r.maxBps == bps)
    ensures r.bucketId == b.bucketId && r.startTs == b.startTs && r.endTs == b.endTs
  {
    var counted := b.(sampleCount := b.sampleCount + 1);
    if bps > counted.maxBps then counted.(maxBps := bps) else counted
  }

  /** `append` on a deque with `maxlen=cap` that holds at most `cap` items. */
  function DequeAppend<T>(h: seq<T>, cap: nat, x: T): seq<T> {
    var r := h + [x];
    if |r| <= cap then r else r[|r| - cap..]
  }

  /** The deque keeps the newest `cap` items in order: the oldest is dropped when full, nothing when `cap` is 0. */
  lemma DequeAppendKeepsNewest<T>(h: seq<T>, cap: nat, x: T)
    requires |h| <= cap
    ensures var r := DequeAppend(h, cap, x);
      && |r| == (if |h| < cap then |h| + 1 else cap)
      && r == (h + [x])[|h| + 1 - |r|..]
      && (|h| < cap ==> r == h + [x])
      && (0 < |h| == cap ==> r == h[1..] + [x])
      && (cap == 0 ==> r == [])
  {
    var r := DequeAppend(h, cap, x);
    if 0 < |h| == cap {
      assert r == (h + [x])[1..];
      assert (h + [x])[1..] == h[1..] + [x];
    }
  }

  /** The collector's state as values: the history deque, the current bucket and the latest sample. */
  datatype Timeline = Timeline(history: seq<Bucket>, current: Option<Bucket>, latest: Option<Sample>) {
    /** `buckets()`: the history oldest first, then the current bucket when there is one. */
    function Buckets(): seq<Bucket> {
      history + if current.Some? then [current.value] else []
    }
  }

  /** What `_handle_sample` does with one sample. */
  function Step(t: Timeline, cap: nat, span: int, sample: Sample): Timeline
    requires span != 0
  {
    var id := BucketId(sample.timestamp, span);
    if t.current.None? || t.current.value.bucketId != id then
      var history := if t.current.Some? then DequeAppend(t.history, cap, t.current.value) else t.history;
      Timeline(history, Some(OpenBucket(id, span, sample.bps)), Some(sample))
    else
      Timeline(t.history, Some(Absorb(t.current.value, sample.bps)), Some(sample))
  }

  /** A bucket holds a sample and spans exactly its own window. */
  predicate WellFormed(b: Bucket, span: int) {
    b.sampleCount >= 1 && b.startTs == BucketStart(b.bucketId, span) && b.endTs == b.startTs + span
  }

  /** Every bucket of a list is well formed. */
  predicate AllWellFormed(bs: seq<Bucket>, span: int) {
    forall b :: b in bs ==> WellFormed(b, span)
  }

  /**
   * The states `_handle_sample` can reach from an empty collector: the history
   * fits the deque, there is a history only once there is a current bucket,
   * the latest sample is set with it, and every bucket is well formed.
   */
  predicate Valid(t: Timeline, cap: nat, span: int) {
    && |t.history| <= cap
    && (t.current.None? ==> t.history == [])
    && (t.current.Some? <==> t.latest.Some?)
    && AllWellFormed(t.Buckets(), span)
  }

  /** The empty collector is valid. */
  lemma EmptyValid(cap: nat, span: int)
    ensures Valid(Timeline([], None, None), cap, span)
  {
  }

  /** Every handled sample becomes the latest sample. */
  lemma StepLatest(t: Timeline, cap: nat, span: int, sample: Sample)
    requires span != 0
    ensures Step(t, cap, span, sample).latest == Some(sample)
    ensures Step(t, cap, span, sample).current.Some?
  {
  }

  /**
   * A sample of the current window changes only the current bucket: one more
   * sample, the larger rate, the same window; the history is untouched.
   */
  lemma StepSameBucket(t: Timeline, cap: nat, span: int, sample: Sample)
    requires span != 0 && t.current.Some? && t.current.value.bucketId == BucketId(sample.timestamp, span)
    ensures var t' := Step(t, cap, span, sample);
      && t'.history == t.history
      && t'.current.Some?
      && t'.current.value.sampleCount == t.current.value.sampleCount + 1
      && t'.current.value.maxBps == (if sample.bps > t.current.value.maxBps then sample.bps else t.current.value.maxBps)
      && t'.current.value.bucketId == t.current.value.bucketId
      && t'.current.value.startTs == t.current.value.startTs
      && t'.current.value.endTs == t.current.value.endTs
  {
  }

  /**
   * A sample of another window retires the current bucket, if any, into the
   * history deque and opens a bucket of one sample whose maximum is its rate;
   * the buckets are the newest `cap + 1` of the old ones and the new one.
   */
  lemma StepNewBucket(t: Timeline, cap: nat, span: int, sample: Sample)
    requires span != 0 && Valid(t, cap, span)
    requires t.current.None? || t.current.value.bucketId != BucketId(sample.timestamp, span)
    ensures var t' := Step(t, cap, span, sample);
      var prior := t.Buckets();
      && t'.current == Some(OpenBucket(BucketId(sample.timestamp, span), span, sample.bps))
      && (t.current.None? ==> t'.history == [])
      && (t.current.Some? ==> t'.history == DequeAppend(t.history, cap, t.current.value))
      && t'.history == prior[|prior| - |t'.history|..]
      && t'.Buckets() == t'.history + [t'.current.value]
  {
    var t' := Step(t, cap, span, sample);
    if t.current.Some? {
      DequeAppendKeepsNewest(t.history, cap, t.current.value);
    }
  }

  /** The buckets after a sample of the current window: the same list but the last, which absorbed it. */
  lemma StepSameBuckets(t: Timeline, cap: nat, span: int, sample: Sample)
    requires span != 0 && t.current.Some? && t.current.value.bucketId == BucketId(sample.timestamp, span)
    ensures var b := t.Buckets();
      Step(t, cap, span, sample).Buckets() == b[..|b| - 1] + [Absorb(b[|b| - 1], sample.bps)]
  {
    var b := t.Buckets();
    assert b[..|b| - 1] == t.history;
  }

  /** Validity after a sample of the current window. */
  lemma StepValidSame(t: Timeline, cap: nat, span: int, sample: Sample)
    requires span != 0 && Valid(t, cap, span)
    requires t.current.Some? && t.current.value.bucketId == BucketId(sample.timestamp, span)
    ensures Valid(Step(t, cap, span, sample), cap, span)
  {
    var t' := Step(t, cap, span, sample);
    assert t.current.value in t.Buckets();
    assert t'.Buckets() == t.history + [t'.current.value];
    forall b | b in t.history ensures WellFormed(b, span) {
      assert b in t.Buckets();
    }
  }

  /** Validity after a sample of another window. */
  lemma StepValidNew(t: Timeline, cap: nat, span: int, sample: Sample)
    requires span != 0 && Valid(t, cap, span)
    requires t.current.None? || t.current.value.bucketId != BucketId(sample.timestamp, span)
    ensures Valid(Step(t, cap, span, sample), cap, span)
  {
    var t' := Step(t, cap, span, sample);
    var prior := t.Buckets();
    StepNewBucket(t, cap, span, sample);
    if t.current.Some? {
      DequeAppendKeepsNewest(t.history, cap, t.current.value);
    }
    InSuffix(prior, |prior| - |t'.history|);
    assert t'.Buckets() == t'.history + [t'.current.value];
  }

  /** Handling a sample keeps the collector valid: the history never outgrows the deque and every bucket holds a sample. */
  lemma StepValid(t: Timeline, cap: nat, span: int, sample: Sample)
    requires span != 0 && Valid(t, cap, span)
    ensures Valid(Step(t, cap, span, sample), cap, span)
  {
    if t.current.Some? && t.current.value.bucketId == BucketId(sample.timestamp, span) {
      StepValidSame(t, cap, span, sample);
    } else {
      StepValidNew(t, cap, span, sample);
    }
  }

  /** The windows of the buckets strictly increase. */
  predicate Increasing(bs: seq<Bucket>) {
    forall i, j :: 0 <= i < j < |bs| ==> bs[i].bucketId < bs[j].bucketId
  }

  /** A suffix of increasing buckets increases. */
  lemma IncreasingSuffix(bs: seq<Bucket>, k: nat)
    requires Increasing(bs) && k <= |bs|
    ensures Increasing(bs[k..])
  {
    var s := bs[k..];
    forall i, j | 0 <= i < j < |s| ensures s[i].bucketId < s[j].bucketId {
      assert s[i] == bs[k + i] && s[j] == bs[k + j];
    }
  }

  /** The last of increasing buckets has the largest window. */
  lemma IncreasingLast(bs: seq<Bucket>)
    requires Increasing(bs) && bs != []
    ensures forall b :: b in bs ==> b.bucketId <= bs[|bs| - 1].bucketId
  {
    forall b | b in bs ensures b.bucketId <= bs[|bs| - 1].bucketId {
      var i :| 0 <= i < |bs| && bs[i] == b;
    }
  }

  /** A bucket of a later window may follow increasing buckets. */
  lemma IncreasingSnoc(bs: seq<Bucket>, b: Bucket)
    requires Increasing(bs) && forall x :: x in bs ==> x.bucketId < b.bucketId
    ensures Increasing(bs + [b])
  {
    var s := bs + [b];
    forall i, j | 0 <= i < j < |s| ensures s[i].bucketId < s[j].bucketId {
      assert s[i] in bs;
      if j < |bs| {
        assert s[i] == bs[i] && s[j] == bs[j];
      }
    }
  }

  /** The timeline agrees with its latest sample: the current bucket is that sample's window and the windows increase. */
  predicate Chronological(t: Timeline, span: int)
    requires span != 0
  {
    && (t.current.Some? && t.latest.Some? ==> t.current.value.bucketId == BucketId(t.latest.value.timestamp, span))
    && Increasing(t.Buckets())
  }

  /** Window order after a sample of the current window: the windows are those of before. */
  lemma StepChronologicalSame(t: Timeline, cap: nat, span: int, sample: Sample)
    requires span > 0 && Chronological(t, span)
    requires t.current.Some? && t.current.value.bucketId == BucketId(sample.timestamp, span)
    ensures Chronological(Step(t, cap, span, sample), span)
  {
    var prior := t.Buckets();
    var b' := Step(t, cap, span, sample).Buckets();
    StepSameBuckets(t, cap, span, sample);
    assert prior[|prior| - 1] == t.current.value;
    assert |b'| == |prior|;
    assert forall i :: 0 <= i < |b'| ==> b'[i].bucketId == prior[i].bucketId;
  }

  /** What a suffix holds, the whole sequence holds. */
  lemma InSuffix<T>(s: seq<T>, k: nat)
    requires k <= |s|
    ensures forall x :: x in s[k..] ==> x in s
  {
    forall x | x in s[k..] ensures x in s {
      var i :| 0 <= i < |s[k..]| && s[k..][i] == x;
      assert x == s[k + i];
    }
  }

  /** Window order after a sample of a later window: the kept buckets are older than the new one. */
  lemma StepChronologicalNew(t: Timeline, cap: nat, span: int, sample: Sample)
    requires span > 0 && Valid(t, cap, span) && Chronological(t, span)
    requires t.latest.Some? ==> t.latest.value.timestamp <= sample.timestamp
    requires t.current.None? || t.current.value.bucketId != BucketId(sample.timestamp, span)
    ensures Chronological(Step(t, cap, span, sample), span)
  {
    var t' := Step(t, cap, span, sample);
    var prior := t.Buckets();
    StepNewBucket(t, cap, span, sample);
    var k := |prior| - |t'.history|;
    IncreasingSuffix(prior, k);
    if t.current.Some? {
      BucketIdMonotone(t.latest.value.timestamp, sample.timestamp, span);
      IncreasingLast(prior);
      InSuffix(prior, k);
    }
    IncreasingSnoc(t'.history, t'.current.value);
  }

  /**
   * While timestamps do not go back and the span is positive, the buckets stay
   * in window order, oldest first, with no window twice.
   */
  lemma StepChronological(t: Timeline, cap: nat, span: int, sample: Sample)
    requires span > 0 && Valid(t, cap, span) && Chronological(t, span)
    requires t.latest.Some? ==> t.latest.value.timestamp <= sample.timestamp
    ensures Chronological(Step(t, cap, span, sample), span)
  {
    if t.current.Some? && t.current.value.bucketId == BucketId(sample.timestamp, span) {
      StepChronologicalSame(t, cap, span, sample);
    } else {
      StepChronologicalNew(t, cap, span, sample);
    }
  }

  /** The collector object: its configuration, the history deque, the current bucket and the latest sample. */
  class TrafficCollector {
    const span: int
    const capacity: nat
    var history: seq<Bucket>
    var current: Option<Bucket>
    var latestSample: Option<Sample>

    /** The state as a value. */
    function Snapshot(): Timeline
      reads this
    {
      Timeline(history, current, latestSample)
    }

    /** The object invariant: a nonzero span and a valid timeline. */
    ghost predicate Inv()
      reads this
    {
      span != 0 && Valid(Snapshot(), capacity, span)
    }

    /** `__init__` once the deque accepted its length. */
    constructor (agg: AggregationSettings)
      requires HistoryCapacity(agg).Ok?
      ensures span == agg.windowSeconds && capacity == HistoryCapacity(agg).value
      ensures Snapshot() == Timeline([], None, None)
      ensures Inv()
    {
      span := agg.windowSeconds;
      capacity := HistoryCapacity(agg).value;
      history := [];
      current := None;
      latestSample := None;
    }

    /** `TrafficCollector(xdp_cfg, agg_cfg)`: the collector, or the error the history deque raises. */
    static method New(agg: AggregationSettings) returns (r: Result<TrafficCollector, Exception>)
      ensures r.Err? <==> HistoryCapacity(agg).Err?
      ensures r.Err? ==> r.error == HistoryCapacity(agg).error
      ensures r.Ok? ==> fresh(r.value) && r.value.Inv() && r.value.Snapshot() == Timeline([], None, None)
    {
      match HistoryCapacity(agg)
      case Err(e) =>
        r := Err(e);
      case Ok(_) =>
        var c := new TrafficCollector(agg);
        r := Ok(c);
    }

    /** `_handle_sample`: update the current bucket in place, or retire it and open the sample's window. */
    method HandleSample(sample: Sample)
      requires Inv()
      modifies this
      ensures Inv()
      ensures Snapshot() == Step(old(Snapshot()), capacity, span, sample)
    {
      ghost var before := Snapshot();
      var id := BucketId(sample.timestamp, span);
      latestSample := Some(sample);
      if current.None? || current.value.bucketId != id {
        if current.Some? {
          DequeAppendKeepsNewest(history, capacity, current.value);
          history := history + [current.value];
          if |history| > capacity {
            history := history[1..];
          }
        }
        current := Some(OpenBucket(id, span, sample.bps));
      } else {
        var b := current.value;
        b := b.(sampleCount := b.sampleCount + 1);
        if sample.bps > b.maxBps {
          b := b.(maxBps := sample.bps);
        }
        current := Some(b);
      }
      StepValid(before, capacity, span, sample);
    }

    /** `buckets()`: the history oldest first, then the current bucket. */
    method GetBuckets() returns (r: seq<Bucket>)
      ensures r == Snapshot().Buckets()
    {
      r := history;
      if current.Some? {
        r := r + [current.value];
      }
    }

    /** `latest_sample()`: the last handled sample, if any. */
    method LatestSample() returns (r: Option<Sample>)
      ensures r == Snapshot().latest
    {
      r := latestSample;
    }
  }
}

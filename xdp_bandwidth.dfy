/**
 * src/xdp_bandwidth.py without its kernel side: the boolean option parser, the
 * monitor's argument checks, the counter-delta step that turns two readings of
 * the XDP byte and packet counters into one sample, and the push gate of the
 * command-line loop, which buffers samples and sends them as one window.
 */
module XdpBandwidth {
  import opened Wrappers
  import opened Text
  import opened PyValue

  /** One sampling tick: wall-clock time, elapsed seconds, counter deltas and the rates they imply. */
  datatype Sample = Sample(timestamp: real, interval: real, bytes: int, packets: int, bps: real, pps: real)

  // ---------------------------------------------------------------------------
  // parse_bool

  /** The words `parse_bool` reads as true, after stripping and lower-casing. */
  const TrueWords: set<string> := {"1", "true", "yes", "y", "on"}

  /** `parse_bool(value)`: a bool as it is, text by its word, anything else ValueError. */
  function ParseBool(v: Value): (r: Result<bool, Exception>)
    ensures r.Err? <==> !(v.PyBool? || v.PyStr?)
    ensures r.Err? ==> r.error == ValueError
  {
    match v
    case PyBool(b) => Ok(b)
    case PyStr(s) => Ok(Lower(Strip(s)) in TrueWords)
    case _ => Err(ValueError)
  }

  /** Surrounding whitespace does not change what a text means. */
  lemma ParseBoolIgnoresSpace(s: string)
    ensures ParseBool(PyStr(Strip(s))) == ParseBool(PyStr(s))
  {
    StripCharsIdempotent(s, Whitespace);
  }

  /** Text is true exactly when it is one of the words. */
  lemma ParseBoolText(s: string)
    ensures ParseBool(PyStr(s)) == Ok(Lower(Strip(s)) in TrueWords)
  {
  }

  lemma ParseTrueText()
    ensures ParseBool(PyStr("True")) == Ok(true)
  {
    StripCharsKeeps("True", Whitespace);
    assert Lower("True") == "true";
    ParseBoolText("True");
  }

  lemma ParseFalseText()
    ensures ParseBool(PyStr("False")) == Ok(false)
  {
    StripCharsKeeps("False", Whitespace);
    assert Lower("False") == "false";
    ParseBoolText("False");
  }

  /** Python's own rendering of a bool, `str(b)`, parses back to `b`. */
  lemma ParseBoolRender(b: bool)
    ensures ParseBool(PyStr(Render(PyBool(b)))) == Ok(b)
  {
    if b {
      assert Render(PyBool(b)) == "True";
      ParseTrueText();
    } else {
      assert Render(PyBool(b)) == "False";
      ParseFalseText();
    }
  }

  // ---------------------------------------------------------------------------
  // XDPBandwidthMonitor

  /** The attach modes the monitor accepts. */
  const Modes: set<string> := {"auto", "drv", "skb"}

  /** The two checks of `XDPBandwidthMonitor.__init__`, in their order. */
  function CheckMonitorArgs(interval: real, mode: string): (r: Result<(), Exception>)
    ensures r.Ok? <==> interval > 0.0 && mode in Modes
    ensures r.Err? ==> r.error == ValueError
  {
    if interval <= 0.0 then Err(ValueError)
    else if mode !in Modes then Err(ValueError)
    else Ok(())
  }

  /** The least elapsed time a sample divides by. */
  const MinElapsed: real := 0.000_000_001

  /** A counter's growth since the previous reading; a counter that went back counts as no growth. */
  function Delta(curr: int, prev: int): (d: nat)
    ensures d >= curr - prev
    ensures d == 0 || d == curr - prev
  {
    if curr - prev > 0 then curr - prev else 0
  }

  /** An amount per second over `elapsed` seconds. */
  function Rate(amount: real, elapsed: real): real
    requires elapsed > 0.0
  {
    amount / elapsed
  }

  /** A rate times the time it was measured over gives back the amount. */
  lemma RateTimesElapsed(amount: real, elapsed: real)
    requires elapsed > 0.0
    ensures Rate(amount, elapsed) * elapsed == amount
  {
  }

  /** The sample `sample()` returns, from the previous readings and the new ones. */
  function SampleOf(prevBytes: int, prevPackets: int, lastTs: real,
                    currBytes: int, currPackets: int, nowMonotonic: real, nowWall: real): Sample
  {
    var elapsed := if nowMonotonic - lastTs > MinElapsed then nowMonotonic - lastTs else MinElapsed;
    var bytes := Delta(currBytes, prevBytes);
    var packets := Delta(currPackets, prevPackets);
    Sample(nowWall, elapsed, bytes, packets, Rate(bytes as real * 8.0, elapsed), Rate(packets as real, elapsed))
  }

  /**
   * A sample's deltas are never negative and are exactly the growth of a
   * counter that did not go back; its rates are those deltas per elapsed second.
   */
  lemma SampleOfMeaning(prevBytes: int, prevPackets: int, lastTs: real,
                        currBytes: int, currPackets: int, nowMonotonic: real, nowWall: real)
    ensures var s := SampleOf(prevBytes, prevPackets, lastTs, currBytes, currPackets, nowMonotonic, nowWall);
      && s.timestamp == nowWall
      && s.interval >= MinElapsed && s.interval >= nowMonotonic - lastTs
      && s.bytes >= 0 && s.packets >= 0
      && (currBytes >= prevBytes ==> s.bytes == currBytes - prevBytes)
      && (currPackets >= prevPackets ==> s.packets == currPackets - prevPackets)
      && s.bps >= 0.0 && s.pps >= 0.0
      && s.bps * s.interval == 8.0 * s.bytes as real
      && s.pps * s.interval == s.packets as real
  {
    var s := SampleOf(prevBytes, prevPackets, lastTs, currBytes, currPackets, nowMonotonic, nowWall);
    RateTimesElapsed(s.bytes as real * 8.0, s.interval);
    RateTimesElapsed(s.packets as real, s.interval);
  }

  /** The deltas a run of counter readings reports, each against the reading before it. */
  function Deltas(prev: int, readings: seq<int>): (ds: seq<nat>)
    ensures |ds| == |readings|
    decreases |readings|
  {
    if readings == [] then [] else [Delta(readings[0], prev)] + Deltas(readings[0], readings[1..])
  }

  function SumOf(xs: seq<nat>): nat {
    if xs == [] then 0 else xs[0] + SumOf(xs[1..])
  }

  /** Readings that never go back from `prev` on. */
  predicate NeverBack(prev: int, readings: seq<int>)
    decreases |readings|
  {
    readings != [] ==> prev <= readings[0] && NeverBack(readings[0], readings[1..])
  }

  /** While the counter never goes back, the reported deltas add up to its whole growth. */
  lemma {:induction false} DeltasTelescope(prev: int, readings: seq<int>)
    requires readings != [] && NeverBack(prev, readings)
    ensures SumOf(Deltas(prev, readings)) == readings[|readings| - 1] - prev
    decreases |readings|
  {
    var rest := readings[1..];
    var ds := Deltas(prev, readings);
    assert ds[0] == readings[0] - prev && ds[1..] == Deltas(readings[0], rest);
    if rest != [] {
      DeltasTelescope(readings[0], rest);
      assert rest[|rest| - 1] == readings[|readings| - 1];
    }
  }

  /** The monitor's sampling state: whether it is attached, and the previous readings. */
  class XdpBandwidthMonitor {
    const iface: string
    const interval: real
    const mode: string
    const debugBpf: bool
    /** `_bpf` and `_stats_map` are set: `start()` ran. */
    var attached: bool
    var prevBytes: int
    var prevPackets: int
    var lastTs: real

    /** The constructor's assignments once the checks passed. */
    constructor (iface: string, interval: real, mode: string, debugBpf: bool)
      requires CheckMonitorArgs(interval, mode).Ok?
      ensures this.iface == iface && this.interval == interval && this.mode == mode && this.debugBpf == debugBpf
      ensures !attached && prevBytes == 0 && prevPackets == 0 && lastTs == 0.0
    {
      this.iface := iface;
      this.interval := interval;
      this.mode := mode;
      this.debugBpf := debugBpf;
      attached := false;
      prevBytes := 0;
      prevPackets := 0;
      lastTs := 0.0;
    }

    /** `XDPBandwidthMonitor(iface, interval, mode, debug_bpf)`, which raises ValueError on bad arguments. */
    static method New(iface: string, interval: real, mode: string, debugBpf: bool)
      returns (r: Result<XdpBandwidthMonitor, Exception>)
      ensures r.Err? <==> CheckMonitorArgs(interval, mode).Err?
      ensures r.Err? ==> r.error == ValueError
      ensures r.Ok? ==> fresh(r.value) && !r.value.attached
      ensures r.Ok? ==> r.value.interval == interval && r.value.mode == mode && r.value.iface == iface
    {
      var check := CheckMonitorArgs(interval, mode);
      if check.Err? {
        return Err(check.error);
      }
      var m := new XdpBandwidthMonitor(iface, interval, mode, debugBpf);
      return Ok(m);
    }

    /** The end of `start()` once the program is attached: the first counter readings and the clock. */
    method Start(bytes: int, packets: int, nowMonotonic: real)
      modifies this
      ensures attached && prevBytes == bytes && prevPackets == packets && lastTs == nowMonotonic
    {
      attached := true;
      prevBytes, prevPackets := bytes, packets;
      lastTs := nowMonotonic;
    }

    /**
     * `sample()` after the sleep, given the new counter readings and both
     * clocks: RuntimeError when not started, else the sample, and the new
     * readings become the previous ones.
     */
    method TakeSample(currBytes: int, currPackets: int, nowMonotonic: real, nowWall: real)
      returns (r: Result<Sample, Exception>)
      modifies this
      ensures !old(attached) ==> r == Err(RuntimeError) && unchanged(this)
      ensures old(attached) ==> r == Ok(SampleOf(old(prevBytes), old(prevPackets), old(lastTs), currBytes, currPackets, nowMonotonic, nowWall))
      ensures old(attached) ==> attached && prevBytes == currBytes && prevPackets == currPackets && lastTs == nowMonotonic
    {
      if !attached {
        return Err(RuntimeError);
      }
      var elapsed := nowMonotonic - lastTs;
      if elapsed <= MinElapsed {
        elapsed := MinElapsed;
      }
      lastTs := nowMonotonic;
      var deltaBytes := Delta(currBytes, prevBytes);
      var deltaPackets := Delta(currPackets, prevPackets);
      prevBytes, prevPackets := currBytes, currPackets;
      var bps := Rate(deltaBytes as real * 8.0, elapsed);
      var pps := Rate(deltaPackets as real, elapsed);
      return Ok(Sample(nowWall, elapsed, deltaBytes, deltaPackets, bps, pps));
    }
  }

  // ---------------------------------------------------------------------------
  // The push gate of run_cli

  /** The numeric part of the window message `maybe_emit` sends. */
  datatype Window = Window(
    start: real, end: real, duration: real, samples: nat,
    bpsAvg: real, bpsMax: real, ppsAvg: real, ppsMax: real,
    bytesTotal: int, packetsTotal: int, timestamp: real)

  function BytesOf(s: Sample): int { s.bytes }
  function PacketsOf(s: Sample): int { s.packets }
  function BpsOf(s: Sample): real { s.bps }
  function PpsOf(s: Sample): real { s.pps }

  /** `sum(f(s) for s in samples)` over integer fields. */
  function Total(samples: seq<Sample>, f: Sample -> int): int {
    if samples == [] then 0 else f(samples[0]) + Total(samples[1..], f)
  }

  /** `sum(f(s) for s in samples)` over real fields. */
  function RealTotal(samples: seq<Sample>, f: Sample -> real): real {
    if samples == [] then 0.0 else f(samples[0]) + RealTotal(samples[1..], f)
  }

  /** `max(f(s) for s in samples)`: at least every value, and one of them. */
  function Peak(samples: seq<Sample>, f: Sample -> real): (m: real)
    requires samples != []
    ensures forall i :: 0 <= i < |samples| ==> f(samples[i]) <= m
    ensures exists i :: 0 <= i < |samples| && f(samples[i]) == m
  {
    if |samples| == 1 then f(samples[0])
    else
      var rest := Peak(samples[1..], f);
      assert forall i :: 1 <= i < |samples| ==> samples[i] == samples[1..][i - 1];
      if f(samples[0]) >= rest then f(samples[0]) else rest
  }

  /** Counting a buffer in two parts counts each sample once. */
  lemma {:induction false} TotalConcat(a: seq<Sample>, b: seq<Sample>, f: Sample -> int)
    ensures Total(a + b, f) == Total(a, f) + Total(b, f)
  {
    if a == [] {
      assert a + b == b;
    } else {
      assert (a + b)[1..] == a[1..] + b;
      TotalConcat(a[1..], b, f);
    }
  }

  /** `total / n` for a non-empty buffer. */
  function Mean(total: real, n: nat): real
    requires n > 0
  {
    total / n as real
  }

  /** An average times the count gives back the total. */
  lemma MeanTimesCount(avg: real, total: real, n: nat)
    requires n > 0 && avg == Mean(total, n)
    ensures avg * n as real == total
  {
  }

  /** The window `maybe_emit` builds from a non-empty buffer at wall time `now`. */
  function WindowOf(samples: seq<Sample>, now: real): (w: Window)
    requires samples != []
    ensures w.samples == |samples| && w.timestamp == now
    ensures w.start == samples[0].timestamp && w.end == samples[|samples| - 1].timestamp
  {
    var n := |samples|;
    var first, last := samples[0], samples[n - 1];
    var duration := if last.timestamp - first.timestamp >= last.interval then last.timestamp - first.timestamp else last.interval;
    Window(
      first.timestamp, last.timestamp, duration, n,
      Mean(RealTotal(samples, BpsOf), n), Peak(samples, BpsOf),
      Mean(RealTotal(samples, PpsOf), n), Peak(samples, PpsOf),
      Total(samples, BytesOf), Total(samples, PacketsOf), now)
  }

  /** A window lasts the longer of its time span and the last sample's interval. */
  lemma WindowDuration(samples: seq<Sample>, now: real)
    requires samples != []
    ensures var w := WindowOf(samples, now); var last := samples[|samples| - 1];
      && w.duration >= w.end - w.start && w.duration >= last.interval
      && (w.duration == w.end - w.start || w.duration == last.interval)
  {
  }

  /** A window's maxima bound every sample's rates, and some sample reaches the byte-rate maximum. */
  lemma WindowPeaks(samples: seq<Sample>, now: real)
    requires samples != []
    ensures var w := WindowOf(samples, now);
      && (forall i :: 0 <= i < |samples| ==> samples[i].bps <= w.bpsMax && samples[i].pps <= w.ppsMax)
      && (exists i :: 0 <= i < |samples| && samples[i].bps == w.bpsMax)
  {
    var w := WindowOf(samples, now);
    assert w.bpsMax == Peak(samples, BpsOf) && w.ppsMax == Peak(samples, PpsOf);
    forall i | 0 <= i < |samples| ensures samples[i].bps <= w.bpsMax && samples[i].pps <= w.ppsMax {
      assert BpsOf(samples[i]) <= w.bpsMax && PpsOf(samples[i]) <= w.ppsMax;
    }
    var j :| 0 <= j < |samples| && BpsOf(samples[j]) == w.bpsMax;
    assert samples[j].bps == w.bpsMax;
  }

  /** A window's averages are the sums of the rates over the number of samples. */
  lemma WindowAverages(samples: seq<Sample>, now: real)
    requires samples != []
    ensures var w := WindowOf(samples, now);
      && w.bpsAvg == Mean(RealTotal(samples, BpsOf), |samples|)
      && w.ppsAvg == Mean(RealTotal(samples, PpsOf), |samples|)
  {
  }

  /** A window's totals are the sums of the buffered deltas. */
  lemma WindowTotals(samples: seq<Sample>, now: real)
    requires samples != []
    ensures var w := WindowOf(samples, now);
      w.bytesTotal == Total(samples, BytesOf) && w.packetsTotal == Total(samples, PacketsOf)
  {
  }

  /** The gate's state: the buffered samples and the wall time of the last push. */
  datatype Gate = Gate(samples: seq<Sample>, lastPushWall: real)

  /**
   * `maybe_emit(force)` at wall time `now`: what it sends, if anything, and the
   * state it leaves. Without a publisher or samples nothing is sent and a
   * forced call empties the buffer; an unforced call waits for the push interval.
   */
  function Emit(g: Gate, publishing: bool, pushInterval: real, force: bool, now: real): (Option<Window>, Gate) {
    if !publishing || g.samples == [] then (None, if force then g.(samples := []) else g)
    else if !force && pushInterval > 0.0 && now - g.lastPushWall < pushInterval then (None, g)
    else (Some(WindowOf(g.samples, now)), Gate([], now))
  }

  /** A window is sent exactly when there is a publisher, a sample, and the call is forced or the interval is over. */
  lemma EmitWhen(g: Gate, publishing: bool, pushInterval: real, force: bool, now: real)
    ensures var (w, _) := Emit(g, publishing, pushInterval, force, now);
      w.Some? <==> publishing && g.samples != [] && (force || pushInterval <= 0.0 || now - g.lastPushWall >= pushInterval)
  {
  }

  /** Nothing sent, nothing changed, unless the call was forced. */
  lemma EmitWaits(g: Gate, publishing: bool, pushInterval: real, force: bool, now: real)
    requires !force
    ensures var (w, g') := Emit(g, publishing, pushInterval, force, now);
      w.None? ==> g' == g
  {
  }

  /** A forced call always leaves the buffer empty. */
  lemma EmitForced(g: Gate, publishing: bool, pushInterval: real, now: real)
    ensures Emit(g, publishing, pushInterval, true, now).1.samples == []
  {
  }

  /**
   * A sent window covers the whole buffer, which is emptied, and the push
   * time becomes the send time.
   */
  lemma EmitSends(g: Gate, publishing: bool, pushInterval: real, force: bool, now: real)
    ensures var (w, g') := Emit(g, publishing, pushInterval, force, now);
      w.Some? ==>
        && w.value.samples == |g.samples|
        && w.value.bytesTotal == Total(g.samples, BytesOf)
        && w.value.packetsTotal == Total(g.samples, PacketsOf)
        && g' == Gate([], now)
  {
  }

  /**
   * Bytes are neither lost nor counted twice when a buffer goes out in two
   * windows instead of one.
   */
  lemma WindowsSplit(a: seq<Sample>, b: seq<Sample>, t1: real, t2: real, t: real)
    requires a != [] && b != []
    ensures WindowOf(a, t1).bytesTotal + WindowOf(b, t2).bytesTotal == WindowOf(a + b, t).bytesTotal
    ensures WindowOf(a, t1).samples + WindowOf(b, t2).samples == WindowOf(a + b, t).samples
  {
    TotalConcat(a, b, BytesOf);
  }

  /** The buffer and push time `maybe_emit` keeps between calls, with the publisher and interval it was set up with. */
  class PushGate {
    /** A publisher was configured (`publisher is not None`). */
    const publishing: bool
    const pushInterval: real
    var samples: seq<Sample>
    var lastPushWall: real

    function State(): Gate
      reads this
    {
      Gate(samples, lastPushWall)
    }

    /** The empty buffer and the start time of the loop. */
    constructor (publishing: bool, pushInterval: real, now: real)
      ensures this.publishing == publishing && this.pushInterval == pushInterval
      ensures State() == Gate([], now)
    {
      this.publishing := publishing;
      this.pushInterval := pushInterval;
      samples := [];
      lastPushWall := now;
    }

    /** `aggregator_samples.append(sample)`. */
    method Add(sample: Sample)
      modifies this
      ensures State() == Gate(old(samples) + [sample], old(lastPushWall))
    {
      samples := samples + [sample];
    }

    /** `maybe_emit(force)` at wall time `now`. */
    method MaybeEmit(force: bool, now: real) returns (sent: Option<Window>)
      modifies this
      ensures (sent, State()) == Emit(old(State()), publishing, pushInterval, force, now)
    {
      if !publishing || samples == [] {
        if force {
          samples := [];
        }
        return None;
      }
      if !force && pushInterval > 0.0 && now - lastPushWall < pushInterval {
        return None;
      }
      sent := Some(WindowOf(samples, now));
      samples := [];
      lastPushWall := now;
    }
  }
}

/**
 * The peak tracker of src/traffic_peak.py: interface names read from the
 * kernel's fixed-size name buffers, the optional interface filter, and the
 * body of `main`'s sampling loop, which turns two snapshots of per-interface
 * byte counters into rates, keeps per-interface peaks and raises the ALERT and
 * PEAK flags. The clock, the sleep, the kernel tables and the printing are
 * left out: each tick receives its snapshots and elapsed time, and returns
 * the values the loop prints as reports.
 */
module TrafficPeak {
  import opened Wrappers
  import opened Text
  import opened Utf8
  import opened PyValue
  import opened XdpBandwidth

  // ---------------------------------------------------------------------------
  // decode_ifname
  // ---------------------------------------------------------------------------

  /** What `decode_ifname` returns for a name that decodes to nothing. */
  const Unknown: string := "<unknown>"

  /** `raw.split(b"\x00", 1)[0]`: the bytes before the first NUL. */
  function BeforeNul(raw: seq<byte>): (r: seq<byte>)
    ensures 0 !in r && |r| <= |raw| && r == raw[..|r|]
    ensures |r| < |raw| ==> raw[|r|] == 0
  {
    if raw == [] || raw[0] == 0 then [] else [raw[0]] + BeforeNul(raw[1..])
  }

  /** `decode_ifname(raw)`: the name before the first NUL, decoded with U+FFFD for bad bytes, or `<unknown>`. */
  function DecodeIfname(raw: seq<byte>): (name: string)
    ensures name != []
  {
    var text := Decode(BeforeNul(raw), Replace).value;
    if text == [] then Unknown else text
  }

  /** A buffer that is empty or starts with NUL names no interface. */
  lemma DecodeIfnameEmpty(raw: seq<byte>)
    requires raw == [] || raw[0] == 0
    ensures DecodeIfname(raw) == Unknown
  {
  }

  /** Bytes without NUL are kept whole up to the NUL that ends them. */
  lemma {:induction false} BeforeNulTerminated(p: seq<byte>, rest: seq<byte>)
    requires 0 !in p
    ensures BeforeNul(p + [0] + rest) == p
  {
    if p != [] {
      assert (p + [0] + rest)[1..] == p[1..] + [0] + rest;
      BeforeNulTerminated(p[1..], rest);
    }
  }

  /** Only the character U+0000 encodes to a NUL byte. */
  lemma EncodeCharNoNul(c: char)
    requires c != '\0'
    ensures 0 !in EncodeChar(c)
  {
  }

  lemma {:induction false} EncodeNoNul(s: string)
    requires '\0' !in s
    ensures 0 !in Encode(s)
  {
    if s != [] {
      EncodeCharNoNul(s[0]);
      EncodeNoNul(s[1..]);
    }
  }

  /** A name written into a NUL-padded buffer is read back unchanged. */
  lemma DecodeIfnameRoundTrip(name: string, padding: seq<byte>)
    requires name != [] && '\0' !in name
    ensures DecodeIfname(Encode(name) + [0] + padding) == name
  {
    EncodeNoNul(name);
    BeforeNulTerminated(Encode(name), padding);
    DecodeEncode(name, Replace);
  }

  // ---------------------------------------------------------------------------
  // Snapshots and the interface filter
  // ---------------------------------------------------------------------------

  /** The byte and packet counters of one interface in one direction. */
  datatype Counters = Counters(bytes: int, packets: int)

  /** The reading of an interface missing from a snapshot, `(0, 0)`. */
  const Zero: Counters := Counters(0, 0)

  /** `d.get(k, default)`. */
  function Lookup<V>(m: map<string, V>, k: string, default: V): V {
    if k in m then m[k] else default
  }

  /** `{k: v for k, v in snap.items() if k in filters}` when filters were given. */
  function FilterSnapshot(snap: map<string, Counters>, filters: Option<set<string>>): (r: map<string, Counters>)
    ensures filters.None? ==> r == snap
    ensures filters.Some? ==> r.Keys == snap.Keys * filters.value
    ensures forall k :: k in r ==> r[k] == snap[k]
  {
    if filters.None? then snap else map k | k in snap && k in filters.value :: snap[k]
  }

  // ---------------------------------------------------------------------------
  // sorted(ifaces)
  // ---------------------------------------------------------------------------

  /** `m` is the smallest string of `s`. */
  predicate IsLeast(m: string, s: set<string>) {
    m in s && forall y :: y in s ==> !StrLess(y, m)
  }

  lemma StrLessAntisymmetric()
    ensures forall a, b :: !StrLess(a, b) && !StrLess(b, a) ==> a == b
  {
    forall a, b | !StrLess(a, b) && !StrLess(b, a) ensures a == b {
      StrLessTotal(a, b);
    }
  }

  /** A finite non-empty set of strings has a smallest element. */
  lemma {:induction false} LeastExists(s: set<string>)
    requires s != {}
    ensures exists m :: IsLeast(m, s)
    decreases |s|
  {
    var x :| x in s;
    if s == {x} {
      StrLessIrreflexive(x);
      assert IsLeast(x, s);
    } else {
      LeastExists(s - {x});
      var m :| IsLeast(m, s - {x});
      StrLessTotal(x, m);
      if StrLess(x, m) {
        forall y | y in s ensures !StrLess(y, x) {
          if y == x {
            StrLessIrreflexive(x);
          } else if StrLess(y, x) {
            StrLessTransitive(y, x, m);
          }
        }
        assert IsLeast(x, s);
      } else {
        assert IsLeast(m, s);
      }
    }
  }

  /** `min(s)`. */
  function Least(s: set<string>): (m: string)
    requires s != {}
    ensures IsLeast(m, s)
  {
    LeastExists(s);
    StrLessAntisymmetric();
    var m :| IsLeast(m, s);
    m
  }

  /** `sorted(s)` for a set of names. */
  function SortedNames(s: set<string>): seq<string>
    decreases |s|
  {
    if s == {} then [] else var m := Least(s); [m] + SortedNames(s - {m})
  }

  /** `sorted(s)` lists every name of `s` once, in increasing order. */
  lemma {:induction false} SortedNamesSpec(s: set<string>)
    ensures var r := SortedNames(s);
      && |r| == |s|
      && (forall x :: x in r <==> x in s)
      && (forall i, j :: 0 <= i < j < |r| ==> StrLess(r[i], r[j]))
    decreases |s|
  {
    if s != {} {
      var m := Least(s);
      var tail := SortedNames(s - {m});
      SortedNamesSpec(s - {m});
      var r := SortedNames(s);
      assert r == [m] + tail;
      forall i, j | 0 <= i < j < |r| ensures StrLess(r[i], r[j]) {
        if i == 0 {
          assert r[j] == tail[j - 1] && tail[j - 1] in tail;
          assert r[j] in s && r[j] != m;
          StrLessTotal(m, r[j]);
        } else {
          assert r[i] == tail[i - 1] && r[j] == tail[j - 1];
        }
      }
    }
  }

  // ---------------------------------------------------------------------------
  // The loop body for one interface
  // ---------------------------------------------------------------------------

  /** The loop's dicts: previous counters and peaks per interface, and `first_loop`. */
  datatype Peaks = Peaks(
    prevRx: map<string, Counters>, prevTx: map<string, Counters>,
    peakRx: map<string, real>, peakTx: map<string, real>, peakTotal: map<string, real>,
    firstLoop: bool)

  /** What the loop prints for one interface: its rates, its peaks and the two flags. */
  datatype Report = Report(
    ifname: string, rxBps: real, txBps: real, totalBps: real,
    peakRx: real, peakTx: real, peakTotal: real, alert: bool, peakUp: bool)

  /** The state before the first tick. */
  const Start: Peaks := Peaks(map[], map[], map[], map[], map[], true)

  /**
   * The bytes moved since the previous tick, `max(0, curr - prev)`; an
   * interface missing from the snapshot reads `(0, 0)` and one never seen
   * before is its own previous reading.
   */
  function ByteDelta(prev: map<string, Counters>, snap: map<string, Counters>, ifname: string): nat {
    var curr := Lookup(snap, ifname, Zero);
    Delta(curr.bytes, Lookup(prev, ifname, curr).bytes)
  }

  /** `(bytes * 8) / elapsed`. */
  function BitRate(bytes: nat, elapsed: real): real
    requires elapsed > 0.0
  {
    Rate((bytes * 8) as real, elapsed)
  }

  /** A stored peak, 0.0 when there is none. */
  function PeakOf(peaks: map<string, real>, ifname: string): real {
    Lookup(peaks, ifname, 0.0)
  }

  /** The peak dict after a later tick as the loop writes it: changed only when the rate beats the stored peak or 0.0. */
  function RaiseAsWritten(peaks: map<string, real>, ifname: string, rate: real): map<string, real> {
    if rate > PeakOf(peaks, ifname) then peaks[ifname := rate] else peaks
  }

  /** The peak dict after a later tick with the peak always stored: the larger of the stored peak (or 0.0) and the rate. */
  function Raise(peaks: map<string, real>, ifname: string, rate: real): (r: map<string, real>)
    ensures ifname in r && r[ifname] >= PeakOf(peaks, ifname) && r[ifname] >= rate
    ensures r[ifname] == PeakOf(peaks, ifname) || r[ifname] == rate
  {
    var old_ := PeakOf(peaks, ifname);
    peaks[ifname := if rate > old_ then rate else old_]
  }

  /** For an interface that has a peak, storing the larger value is what the loop does. */
  lemma RaiseAgrees(peaks: map<string, real>, ifname: string, rate: real)
    requires ifname in peaks
    ensures RaiseAsWritten(peaks, ifname, rate) == Raise(peaks, ifname, rate)
  {
    if rate <= peaks[ifname] {
      assert peaks[ifname := peaks[ifname]] == peaks;
    }
  }

  /** The three rates of an interface for one tick. */
  datatype Rates = Rates(rx: real, tx: real, total: real)

  /** `rx_bps`, `tx_bps` and `total_bps` of an interface. */
  function RatesOf(st: Peaks, ifname: string, rx: map<string, Counters>, tx: map<string, Counters>, elapsed: real): Rates
    requires elapsed > 0.0
  {
    var rxBps := BitRate(ByteDelta(st.prevRx, rx, ifname), elapsed);
    var txBps := BitRate(ByteDelta(st.prevTx, tx, ifname), elapsed);
    Rates(rxBps, txBps, rxBps + txBps)
  }

  /** `threshold > 0 and total_bps >= threshold`. */
  predicate Alert(total: real, threshold: real) {
    threshold > 0.0 && total >= threshold
  }

  /** `new_peak`: past the first tick, the total beats the stored total peak (or 0.0). */
  predicate NewPeak(st: Peaks, ifname: string, r: Rates) {
    !st.firstLoop && r.total > PeakOf(st.peakTotal, ifname)
  }

  /** The peak dicts after the update as the loop writes it. */
  function PeakedAsWritten(st: Peaks, ifname: string, r: Rates): Peaks {
    if st.firstLoop
    then st.(peakRx := st.peakRx[ifname := r.rx], peakTx := st.peakTx[ifname := r.tx], peakTotal := st.peakTotal[ifname := r.total])
    else st.(peakRx := RaiseAsWritten(st.peakRx, ifname, r.rx), peakTx := RaiseAsWritten(st.peakTx, ifname, r.tx),
             peakTotal := RaiseAsWritten(st.peakTotal, ifname, r.total))
  }

  /** The peak dicts after the update with every peak stored. */
  function Peaked(st: Peaks, ifname: string, r: Rates): (p: Peaks)
    ensures ifname in p.peakRx && ifname in p.peakTx && ifname in p.peakTotal
  {
    if st.firstLoop
    then st.(peakRx := st.peakRx[ifname := r.rx], peakTx := st.peakTx[ifname := r.tx], peakTotal := st.peakTotal[ifname := r.total])
    else st.(peakRx := Raise(st.peakRx, ifname, r.rx), peakTx := Raise(st.peakTx, ifname, r.tx),
             peakTotal := Raise(st.peakTotal, ifname, r.total))
  }

  /** The printed line: the rates, the updated peaks, ALERT, and PEAK when past the first tick a positive total set a new peak. */
  function ReportOf(st: Peaks, peaked: Peaks, ifname: string, r: Rates, threshold: real): Report
    requires ifname in peaked.peakRx && ifname in peaked.peakTx && ifname in peaked.peakTotal
  {
    Report(ifname, r.rx, r.tx, r.total, peaked.peakRx[ifname], peaked.peakTx[ifname], peaked.peakTotal[ifname],
           Alert(r.total, threshold), !st.firstLoop && NewPeak(st, ifname, r) && r.total > 0.0)
  }

  /** The previous counters once the interface was processed: the current readings, `(0, 0)` when absent. */
  function Remember(st: Peaks, ifname: string, rx: map<string, Counters>, tx: map<string, Counters>): Peaks {
    st.(prevRx := st.prevRx[ifname := Lookup(rx, ifname, Zero)], prevTx := st.prevTx[ifname := Lookup(tx, ifname, Zero)])
  }

  /**
   * One interface of one tick as src/traffic_peak.py writes it: on a later
   * tick a rate of 0.0 leaves its peak unset, and printing the peaks of an
   * interface that has none raises KeyError.
   */
  function StepAsWritten(st: Peaks, ifname: string, rx: map<string, Counters>, tx: map<string, Counters>,
                         elapsed: real, threshold: real): Result<(Peaks, Report), Exception>
    requires elapsed > 0.0
  {
    var r := RatesOf(st, ifname, rx, tx, elapsed);
    var peaked := PeakedAsWritten(st, ifname, r);
    if ifname !in peaked.peakRx || ifname !in peaked.peakTx || ifname !in peaked.peakTotal then
      Err(KeyError(ifname))
    else
      Ok((Remember(peaked, ifname, rx, tx), ReportOf(st, peaked, ifname, r, threshold)))
  }

  /** One interface of one tick with every peak stored, so the report always has its peaks. */
  function Step(st: Peaks, ifname: string, rx: map<string, Counters>, tx: map<string, Counters>,
                elapsed: real, threshold: real): (Peaks, Report)
    requires elapsed > 0.0
  {
    var r := RatesOf(st, ifname, rx, tx, elapsed);
    var peaked := Peaked(st, ifname, r);
    (Remember(peaked, ifname, rx, tx), ReportOf(st, peaked, ifname, r, threshold))
  }

  /** The step is the peak update followed by remembering the readings, with the report built from the updated peaks. */
  lemma StepParts(st: Peaks, ifname: string, rx: map<string, Counters>, tx: map<string, Counters>, elapsed: real, threshold: real)
    requires elapsed > 0.0
    ensures var r := RatesOf(st, ifname, rx, tx, elapsed);
      && Step(st, ifname, rx, tx, elapsed, threshold).0 == Remember(Peaked(st, ifname, r), ifname, rx, tx)
      && Step(st, ifname, rx, tx, elapsed, threshold).1 == ReportOf(st, Peaked(st, ifname, r), ifname, r, threshold)
  {
  }

  /** The peak update adds the interface to each peak dict and leaves the rest of the state alone. */
  lemma PeakedKeys(st: Peaks, ifname: string, r: Rates)
    ensures var p := Peaked(st, ifname, r);
      && p.peakRx.Keys == st.peakRx.Keys + {ifname}
      && p.peakTx.Keys == st.peakTx.Keys + {ifname}
      && p.peakTotal.Keys == st.peakTotal.Keys + {ifname}
      && p.prevRx == st.prevRx && p.prevTx == st.prevTx && p.firstLoop == st.firstLoop
  {
  }

  /** A rate times the time it was measured over gives back the bits. */
  lemma BitRateSpec(bytes: nat, elapsed: real)
    requires elapsed > 0.0
    ensures BitRate(bytes, elapsed) * elapsed == (8 * bytes) as real
  {
    RateTimesElapsed((bytes * 8) as real, elapsed);
  }

  /** A rate over a positive time is never negative, and 0.0 for no bytes. */
  lemma BitRateSign(bytes: nat, elapsed: real)
    requires elapsed > 0.0
    ensures BitRate(bytes, elapsed) >= 0.0
    ensures bytes == 0 ==> BitRate(bytes, elapsed) == 0.0
  {
    BitRateSpec(bytes, elapsed);
  }

  /** The report is about the interface processed. */
  lemma StepIfname(st: Peaks, ifname: string, rx: map<string, Counters>, tx: map<string, Counters>, elapsed: real, threshold: real)
    requires elapsed > 0.0
    ensures Step(st, ifname, rx, tx, elapsed, threshold).1.ifname == ifname
  {
  }

  /**
   * The rates are the bits moved in each direction, never negative, over the
   * elapsed time; an interface seen for the first time has no rate yet, and
   * the total is the sum of both directions.
   */
  lemma StepRates(st: Peaks, ifname: string, rx: map<string, Counters>, tx: map<string, Counters>, elapsed: real, threshold: real)
    requires elapsed > 0.0
    ensures var rep := Step(st, ifname, rx, tx, elapsed, threshold).1;
      && rep.rxBps == BitRate(ByteDelta(st.prevRx, rx, ifname), elapsed)
      && rep.txBps == BitRate(ByteDelta(st.prevTx, tx, ifname), elapsed)
      && rep.totalBps == rep.rxBps + rep.txBps
    ensures var rep := Step(st, ifname, rx, tx, elapsed, threshold).1;
      && rep.rxBps >= 0.0 && rep.txBps >= 0.0
      && (ifname !in st.prevRx ==> rep.rxBps == 0.0)
      && (ifname !in st.prevTx ==> rep.txBps == 0.0)
  {
    var rxBytes, txBytes := ByteDelta(st.prevRx, rx, ifname), ByteDelta(st.prevTx, tx, ifname);
    var rep := Step(st, ifname, rx, tx, elapsed, threshold).1;
    assert rep.rxBps == BitRate(rxBytes, elapsed) && rep.txBps == BitRate(txBytes, elapsed);
    BitRateSign(rxBytes, elapsed);
    BitRateSign(txBytes, elapsed);
  }

  /** A byte counter that went back counts as no traffic. */
  lemma ByteDeltaSpec(prev: map<string, Counters>, snap: map<string, Counters>, ifname: string)
    ensures var curr := Lookup(snap, ifname, Zero).bytes;
      && (ifname !in prev ==> ByteDelta(prev, snap, ifname) == 0)
      && (ifname in prev && curr >= prev[ifname].bytes ==> ByteDelta(prev, snap, ifname) == curr - prev[ifname].bytes)
      && (ifname in prev && curr < prev[ifname].bytes ==> ByteDelta(prev, snap, ifname) == 0)
  {
  }

  /** On the first tick every peak is the current rate and no PEAK flag is raised. */
  lemma StepFirstLoop(st: Peaks, ifname: string, rx: map<string, Counters>, tx: map<string, Counters>, elapsed: real, threshold: real)
    requires elapsed > 0.0 && st.firstLoop
    ensures var (st', rep) := Step(st, ifname, rx, tx, elapsed, threshold);
      && st'.peakRx[ifname] == rep.rxBps && st'.peakTx[ifname] == rep.txBps && st'.peakTotal[ifname] == rep.totalBps
      && !rep.peakUp
      && st'.firstLoop
  {
  }

  /**
   * On a later tick each peak rises to the larger of the old peak and the
   * current rate and never falls; PEAK is flagged exactly when the total beats
   * the old total peak and is positive.
   */
  lemma StepLaterLoop(st: Peaks, ifname: string, rx: map<string, Counters>, tx: map<string, Counters>, elapsed: real, threshold: real)
    requires elapsed > 0.0 && !st.firstLoop
    ensures var (st', rep) := Step(st, ifname, rx, tx, elapsed, threshold);
      && st'.peakRx[ifname] == (if rep.rxBps > PeakOf(st.peakRx, ifname) then rep.rxBps else PeakOf(st.peakRx, ifname))
      && st'.peakTx[ifname] == (if rep.txBps > PeakOf(st.peakTx, ifname) then rep.txBps else PeakOf(st.peakTx, ifname))
      && st'.peakTotal[ifname] == (if rep.totalBps > PeakOf(st.peakTotal, ifname) then rep.totalBps else PeakOf(st.peakTotal, ifname))
      && (rep.peakUp <==> rep.totalBps > PeakOf(st.peakTotal, ifname) && rep.totalBps > 0.0)
      && !st'.firstLoop
  {
  }

  /** ALERT is flagged exactly when a threshold is set and the total reaches it; the report shows the stored peaks. */
  lemma StepFlags(st: Peaks, ifname: string, rx: map<string, Counters>, tx: map<string, Counters>, elapsed: real, threshold: real)
    requires elapsed > 0.0
    ensures var (st', rep) := Step(st, ifname, rx, tx, elapsed, threshold);
      && (rep.alert <==> threshold > 0.0 && rep.totalBps >= threshold)
      && (rep.peakUp ==> !st.firstLoop && rep.totalBps > 0.0)
      && rep.peakRx == st'.peakRx[ifname] && rep.peakTx == st'.peakTx[ifname] && rep.peakTotal == st'.peakTotal[ifname]
  {
  }

  /** After an interface is processed its previous counters are the current readings, and it has all three peaks. */
  lemma StepRemembers(st: Peaks, ifname: string, rx: map<string, Counters>, tx: map<string, Counters>, elapsed: real, threshold: real)
    requires elapsed > 0.0
    ensures var st' := Step(st, ifname, rx, tx, elapsed, threshold).0;
      && st'.prevRx == st.prevRx[ifname := Lookup(rx, ifname, Zero)]
      && st'.prevTx == st.prevTx[ifname := Lookup(tx, ifname, Zero)]
      && st'.peakRx.Keys == st.peakRx.Keys + {ifname}
      && st'.peakTx.Keys == st.peakTx.Keys + {ifname}
      && st'.peakTotal.Keys == st.peakTotal.Keys + {ifname}
  {
    StepParts(st, ifname, rx, tx, elapsed, threshold);
    PeakedKeys(st, ifname, RatesOf(st, ifname, rx, tx, elapsed));
  }

  /** The peaks of the other interfaces are left alone. */
  lemma StepOthers(st: Peaks, ifname: string, rx: map<string, Counters>, tx: map<string, Counters>, elapsed: real, threshold: real)
    requires elapsed > 0.0
    ensures var st' := Step(st, ifname, rx, tx, elapsed, threshold).0;
      && (forall k :: k in st.peakRx && k != ifname ==> st'.peakRx[k] == st.peakRx[k])
      && (forall k :: k in st.peakTx && k != ifname ==> st'.peakTx[k] == st.peakTx[k])
      && (forall k :: k in st.peakTotal && k != ifname ==> st'.peakTotal[k] == st.peakTotal[k])
  {
  }

  /** The loop as written agrees with the corrected step whenever the interface already has its peaks, or on the first tick. */
  lemma AsWrittenAgrees(st: Peaks, ifname: string, rx: map<string, Counters>, tx: map<string, Counters>, elapsed: real, threshold: real)
    requires elapsed > 0.0
    requires st.firstLoop || (ifname in st.peakRx && ifname in st.peakTx && ifname in st.peakTotal)
    ensures StepAsWritten(st, ifname, rx, tx, elapsed, threshold) == Ok(Step(st, ifname, rx, tx, elapsed, threshold))
  {
    var r := RatesOf(st, ifname, rx, tx, elapsed);
    if !st.firstLoop {
      RaiseAgrees(st.peakRx, ifname, r.rx);
      RaiseAgrees(st.peakTx, ifname, r.tx);
      RaiseAgrees(st.peakTotal, ifname, r.total);
    }
    assert PeakedAsWritten(st, ifname, r) == Peaked(st, ifname, r);
  }

  /**
   * As written, an interface that first shows up after the first tick crashes
   * the loop: its rates are 0.0, so no peak is stored for it, and printing
   * `peak_rx[ifname]` raises KeyError.
   */
  lemma AsWrittenNewInterfaceCrashes(st: Peaks, ifname: string, rx: map<string, Counters>, tx: map<string, Counters>, elapsed: real, threshold: real)
    requires elapsed > 0.0 && !st.firstLoop
    requires ifname !in st.prevRx && ifname !in st.prevTx && ifname !in st.peakRx
    ensures StepAsWritten(st, ifname, rx, tx, elapsed, threshold) == Err(KeyError(ifname))
  {
    assert ByteDelta(st.prevRx, rx, ifname) == 0;
  }

  // ---------------------------------------------------------------------------
  // One tick
  // ---------------------------------------------------------------------------

  /** The interfaces processed in sorted order, with their reports. */
  function Steps(st: Peaks, names: seq<string>, rx: map<string, Counters>, tx: map<string, Counters>,
                 elapsed: real, threshold: real): (Peaks, seq<Report>)
    requires elapsed > 0.0
    decreases |names|
  {
    if names == [] then (st, [])
    else
      var (before, reports) := Steps(st, names[..|names| - 1], rx, tx, elapsed, threshold);
      var (after, report) := Step(before, names[|names| - 1], rx, tx, elapsed, threshold);
      (after, reports + [report])
  }

  /** The interfaces a tick reports on: those in either filtered snapshot. */
  function Interfaces(rx: map<string, Counters>, tx: map<string, Counters>): set<string> {
    rx.Keys + tx.Keys
  }

  /**
   * One pass of the sampling loop: nothing when no time elapsed or no
   * interface has data, otherwise every interface of the filtered snapshots in
   * sorted order, after which the first tick is over.
   */
  function LoopPass(st: Peaks, rx: map<string, Counters>, tx: map<string, Counters>, filters: Option<set<string>>,
                elapsed: real, threshold: real): (Peaks, seq<Report>)
  {
    var rx', tx' := FilterSnapshot(rx, filters), FilterSnapshot(tx, filters);
    if elapsed <= 0.0 || Interfaces(rx', tx') == {} then (st, [])
    else
      var (after, reports) := Steps(st, SortedNames(Interfaces(rx', tx')), rx', tx', elapsed, threshold);
      (after.(firstLoop := false), reports)
  }

  /** The reports follow the names, one each, in order. */
  lemma {:induction false} StepsReports(st: Peaks, names: seq<string>, rx: map<string, Counters>, tx: map<string, Counters>,
                                        elapsed: real, threshold: real)
    requires elapsed > 0.0
    ensures var (_, reports) := Steps(st, names, rx, tx, elapsed, threshold);
      |reports| == |names| && forall i :: 0 <= i < |names| ==> reports[i].ifname == names[i]
    decreases |names|
  {
    if names != [] {
      var init := names[..|names| - 1];
      StepsReports(st, init, rx, tx, elapsed, threshold);
      var before := Steps(st, init, rx, tx, elapsed, threshold).0;
      StepIfname(before, names[|names| - 1], rx, tx, elapsed, threshold);
    }
  }

  /** Processing interfaces leaves `first_loop` alone. */
  lemma {:induction false} StepsFirstLoop(st: Peaks, names: seq<string>, rx: map<string, Counters>, tx: map<string, Counters>,
                                          elapsed: real, threshold: real)
    requires elapsed > 0.0
    ensures Steps(st, names, rx, tx, elapsed, threshold).0.firstLoop == st.firstLoop
    decreases |names|
  {
    if names != [] {
      StepsFirstLoop(st, names[..|names| - 1], rx, tx, elapsed, threshold);
    }
  }

  /** Total peaks of interfaces never fall while the loop is past its first tick, and none disappears. */
  lemma {:induction false} StepsPeaksRise(st: Peaks, names: seq<string>, rx: map<string, Counters>, tx: map<string, Counters>,
                                          elapsed: real, threshold: real)
    requires elapsed > 0.0 && !st.firstLoop
    ensures var (after, _) := Steps(st, names, rx, tx, elapsed, threshold);
      forall k :: k in st.peakTotal ==> k in after.peakTotal && after.peakTotal[k] >= st.peakTotal[k]
    decreases |names|
  {
    if names != [] {
      var init := names[..|names| - 1];
      StepsPeaksRise(st, init, rx, tx, elapsed, threshold);
      StepsFirstLoop(st, init, rx, tx, elapsed, threshold);
      var before := Steps(st, init, rx, tx, elapsed, threshold).0;
      StepLaterLoop(before, names[|names| - 1], rx, tx, elapsed, threshold);
      StepRemembers(before, names[|names| - 1], rx, tx, elapsed, threshold);
      StepOthers(before, names[|names| - 1], rx, tx, elapsed, threshold);
    }
  }

  /** A processed interface ends with its three peaks stored. */
  lemma {:induction false} StepsPeaksKnown(st: Peaks, names: seq<string>, rx: map<string, Counters>, tx: map<string, Counters>,
                                           elapsed: real, threshold: real, k: string)
    requires elapsed > 0.0 && k in names
    ensures var after := Steps(st, names, rx, tx, elapsed, threshold).0;
      k in after.peakRx && k in after.peakTx && k in after.peakTotal
    decreases |names|
  {
    var init, last := names[..|names| - 1], names[|names| - 1];
    var before := Steps(st, init, rx, tx, elapsed, threshold).0;
    if k != last {
      assert k in init by { assert names == init + [last]; }
      StepsPeaksKnown(st, init, rx, tx, elapsed, threshold, k);
    }
    StepRemembers(before, last, rx, tx, elapsed, threshold);
  }

  /** A processed interface ends with its current readings as previous counters. */
  lemma {:induction false} StepsPrevKnown(st: Peaks, names: seq<string>, rx: map<string, Counters>, tx: map<string, Counters>,
                                          elapsed: real, threshold: real, k: string)
    requires elapsed > 0.0 && k in names
    ensures var after := Steps(st, names, rx, tx, elapsed, threshold).0;
      && k in after.prevRx && after.prevRx[k] == Lookup(rx, k, Zero)
      && k in after.prevTx && after.prevTx[k] == Lookup(tx, k, Zero)
    decreases |names|
  {
    var init, last := names[..|names| - 1], names[|names| - 1];
    var before := Steps(st, init, rx, tx, elapsed, threshold).0;
    if k != last {
      assert k in init by { assert names == init + [last]; }
      StepsPrevKnown(st, init, rx, tx, elapsed, threshold, k);
    }
    StepRemembers(before, last, rx, tx, elapsed, threshold);
  }

  /** A tick with no elapsed time or no data changes nothing and reports nothing. */
  lemma PassSkips(st: Peaks, rx: map<string, Counters>, tx: map<string, Counters>, filters: Option<set<string>>,
                  elapsed: real, threshold: real)
    requires elapsed <= 0.0 || Interfaces(FilterSnapshot(rx, filters), FilterSnapshot(tx, filters)) == {}
    ensures LoopPass(st, rx, tx, filters, elapsed, threshold) == (st, [])
  {
  }

  /** A pass with data runs the interfaces of the filtered snapshots in sorted order, then ends the first tick. */
  lemma PassUnfold(st: Peaks, rx: map<string, Counters>, tx: map<string, Counters>, filters: Option<set<string>>,
                   elapsed: real, threshold: real)
    requires elapsed > 0.0
    requires Interfaces(FilterSnapshot(rx, filters), FilterSnapshot(tx, filters)) != {}
    ensures var rx', tx' := FilterSnapshot(rx, filters), FilterSnapshot(tx, filters);
      var steps := Steps(st, SortedNames(Interfaces(rx', tx')), rx', tx', elapsed, threshold);
      LoopPass(st, rx, tx, filters, elapsed, threshold) == (steps.0.(firstLoop := false), steps.1)
  {
  }

  /**
   * A pass with data reports on the interfaces of the filtered snapshots in
   * the order of `sorted(ifaces)`, which lists each of them once, increasing.
   */
  lemma PassReports(st: Peaks, rx: map<string, Counters>, tx: map<string, Counters>, filters: Option<set<string>>,
                    elapsed: real, threshold: real)
    requires elapsed > 0.0
    requires Interfaces(FilterSnapshot(rx, filters), FilterSnapshot(tx, filters)) != {}
    ensures var names := SortedNames(Interfaces(FilterSnapshot(rx, filters), FilterSnapshot(tx, filters)));
      var reports := LoopPass(st, rx, tx, filters, elapsed, threshold).1;
      |reports| == |names| && forall i :: 0 <= i < |names| ==> reports[i].ifname == names[i]
  {
    var rx', tx' := FilterSnapshot(rx, filters), FilterSnapshot(tx, filters);
    PassUnfold(st, rx, tx, filters, elapsed, threshold);
    StepsReports(st, SortedNames(Interfaces(rx', tx')), rx', tx', elapsed, threshold);
  }

  /**
   * After a pass with data the first tick is over, and every interface of the
   * filtered snapshots has its peaks and its current readings as previous counters.
   */
  lemma PassRemembers(st: Peaks, rx: map<string, Counters>, tx: map<string, Counters>, filters: Option<set<string>>,
                      elapsed: real, threshold: real)
    requires elapsed > 0.0
    requires Interfaces(FilterSnapshot(rx, filters), FilterSnapshot(tx, filters)) != {}
    ensures var rx', tx' := FilterSnapshot(rx, filters), FilterSnapshot(tx, filters);
      var after := LoopPass(st, rx, tx, filters, elapsed, threshold).0;
      && !after.firstLoop
      && forall k :: k in Interfaces(rx', tx') ==>
           && k in after.peakRx && k in after.peakTx && k in after.peakTotal
           && k in after.prevRx && after.prevRx[k] == Lookup(rx', k, Zero)
           && k in after.prevTx && after.prevTx[k] == Lookup(tx', k, Zero)
  {
    var rx', tx' := FilterSnapshot(rx, filters), FilterSnapshot(tx, filters);
    var ifaces := Interfaces(rx', tx');
    var names := SortedNames(ifaces);
    PassUnfold(st, rx, tx, filters, elapsed, threshold);
    SortedNamesSpec(ifaces);
    forall k | k in ifaces
      ensures var after := Steps(st, names, rx', tx', elapsed, threshold).0;
        && k in after.peakRx && k in after.peakTx && k in after.peakTotal
        && k in after.prevRx && after.prevRx[k] == Lookup(rx', k, Zero)
        && k in after.prevTx && after.prevTx[k] == Lookup(tx', k, Zero)
    {
      StepsPeaksKnown(st, names, rx', tx', elapsed, threshold, k);
      StepsPrevKnown(st, names, rx', tx', elapsed, threshold, k);
    }
  }

  /** Past the first tick, a tick never lowers a total peak. */
  lemma PassPeaksRise(st: Peaks, rx: map<string, Counters>, tx: map<string, Counters>, filters: Option<set<string>>,
                      elapsed: real, threshold: real)
    requires !st.firstLoop
    ensures var (after, _) := LoopPass(st, rx, tx, filters, elapsed, threshold);
      forall k :: k in st.peakTotal ==> k in after.peakTotal && after.peakTotal[k] >= st.peakTotal[k]
  {
    var rx', tx' := FilterSnapshot(rx, filters), FilterSnapshot(tx, filters);
    if elapsed > 0.0 && Interfaces(rx', tx') != {} {
      StepsPeaksRise(st, SortedNames(Interfaces(rx', tx')), rx', tx', elapsed, threshold);
    }
  }

  // ---------------------------------------------------------------------------
  // The loop's state as an object
  // ---------------------------------------------------------------------------

  /** The dicts and flag `main` keeps across ticks, with its threshold and filter. */
  class PeakMonitor {
    const threshold: real
    const filters: Option<set<string>>
    var prevRx: map<string, Counters>
    var prevTx: map<string, Counters>
    var peakRx: map<string, real>
    var peakTx: map<string, real>
    var peakTotal: map<string, real>
    var firstLoop: bool

    function State(): Peaks
      reads this
    {
      Peaks(prevRx, prevTx, peakRx, peakTx, peakTotal, firstLoop)
    }

    /** The empty dicts and `first_loop = True` before the loop starts. */
    constructor (threshold: real, filters: Option<set<string>>)
      ensures this.threshold == threshold && this.filters == filters
      ensures State() == Start
    {
      this.threshold := threshold;
      this.filters := filters;
      prevRx, prevTx := map[], map[];
      peakRx, peakTx, peakTotal := map[], map[], map[];
      firstLoop := true;
    }

    /** The peak update of the loop body: set on the first tick, raised afterwards; `new_peak` when the total peak rose. */
    method UpdatePeaks(ifname: string, r: Rates) returns (newPeak: bool)
      modifies this
      ensures State() == Peaked(old(State()), ifname, r)
      ensures newPeak == NewPeak(old(State()), ifname, r)
    {
      newPeak := false;
      if firstLoop {
        peakRx := peakRx[ifname := r.rx];
        peakTx := peakTx[ifname := r.tx];
        peakTotal := peakTotal[ifname := r.total];
      } else {
        peakRx := Raise(peakRx, ifname, r.rx);
        peakTx := Raise(peakTx, ifname, r.tx);
        var prevTotalPeak := PeakOf(peakTotal, ifname);
        peakTotal := Raise(peakTotal, ifname, r.total);
        newPeak := r.total > prevTotalPeak;
      }
    }

    /** The rates of an interface from the current readings and the stored previous ones. */
    method CurrentRates(ifname: string, rx: map<string, Counters>, tx: map<string, Counters>, elapsed: real)
      returns (r: Rates)
      requires elapsed > 0.0
      ensures r == RatesOf(State(), ifname, rx, tx, elapsed)
    {
      var currRx, currTx := Lookup(rx, ifname, Zero), Lookup(tx, ifname, Zero);
      var rxBps := BitRate(Delta(currRx.bytes, Lookup(prevRx, ifname, currRx).bytes), elapsed);
      var txBps := BitRate(Delta(currTx.bytes, Lookup(prevTx, ifname, currTx).bytes), elapsed);
      r := Rates(rxBps, txBps, rxBps + txBps);
    }

    /** The loop body for one interface, updating the dicts in place. */
    method StepInterface(ifname: string, rx: map<string, Counters>, tx: map<string, Counters>, elapsed: real)
      returns (report: Report)
      requires elapsed > 0.0
      modifies this
      ensures State() == Step(old(State()), ifname, rx, tx, elapsed, threshold).0
      ensures report == Step(old(State()), ifname, rx, tx, elapsed, threshold).1
    {
      ghost var st := State();
      var r := CurrentRates(ifname, rx, tx, elapsed);
      var currRx, currTx := Lookup(rx, ifname, Zero), Lookup(tx, ifname, Zero);
      var wasFirst := firstLoop;
      var newPeak := UpdatePeaks(ifname, r);
      var alert := threshold > 0.0 && r.total >= threshold;
      var peakUp := !wasFirst && newPeak && r.total > 0.0;
      report := Report(ifname, r.rx, r.tx, r.total, peakRx[ifname], peakTx[ifname], peakTotal[ifname], alert, peakUp);
      assert report == ReportOf(st, State(), ifname, r, threshold);
      ghost var peaked := State();
      prevRx := prevRx[ifname := currRx];
      prevTx := prevTx[ifname := currTx];
      assert State() == Remember(peaked, ifname, rx, tx);
      StepParts(st, ifname, rx, tx, elapsed, threshold);
    }

    /** One pass of the sampling loop, given the two snapshots and the time since the previous pass. */
    method Tick(rx: map<string, Counters>, tx: map<string, Counters>, elapsed: real) returns (reports: seq<Report>)
      modifies this
      ensures (State(), reports) == LoopPass(old(State()), rx, tx, filters, elapsed, threshold)
    {
      reports := [];
      if elapsed <= 0.0 {
        return;
      }
      var rx', tx' := FilterSnapshot(rx, filters), FilterSnapshot(tx, filters);
      var ifaces := Interfaces(rx', tx');
      if ifaces == {} {
        return;
      }
      var names := SortedNames(ifaces);
      ghost var start := State();
      for i := 0 to |names|
        invariant (State(), reports) == Steps(start, names[..i], rx', tx', elapsed, threshold)
      {
        assert names[..i + 1][..i] == names[..i];
        var report := StepInterface(names[i], rx', tx', elapsed);
        reports := reports + [report];
      }
      assert names[..|names|] == names;
      firstLoop := false;
    }
  }
}

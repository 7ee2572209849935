/**
 * MetricStore of backend/store.py: the bandwidth table, the integrity table
 * and the alert deque, with time-based retention. The lock is left out (every
 * method runs alone) and the current time is a parameter `now`.
 */
module Store {
  import opened Wrappers
  import opened Sorting
  import opened PyValue
  import opened StoreEntries
  import opened StoreTables
  import opened StoreQueries

  /** The stored timestamp of a sample, which `_prune_deque` compares with the cutoff. */
  function XdpTs(e: XdpEntry): real {
    e.timestamp
  }

  /** The stored timestamp of an integrity event. */
  function IntegrityTs(e: IntegrityEntry): real {
    e.timestamp
  }

  /** A dict of deques: its keys in insertion order and the series under each. */
  datatype Keyed<T> = Keyed(keys: seq<string>, series: map<string, seq<T>>)

  /** One dict after the per-key loop of `_prune_locked` at `cutoff`: emptied keys are deleted, the others keep their order. */
  function PruneKeyed<T>(t: Keyed<T>, ts: T -> real, cutoff: real): Keyed<T> {
    Keyed(PruneKeys(t.keys, t.series, ts, cutoff), PruneSeries(t.series, ts, cutoff))
  }

  /** The dict after `setdefault(key, deque()).append(e)`. */
  function AppendKeyed<T>(t: Keyed<T>, key: string, e: T): Keyed<T> {
    var r := Append(t.keys, t.series, key, e);
    Keyed(r.0, r.1)
  }

  /** Pruning a table leaves a table. */
  lemma PruneKeyedValid<T>(t: Keyed<T>, ts: T -> real, cutoff: real)
    requires Table(t.keys, t.series)
    ensures var r := PruneKeyed(t, ts, cutoff); Table(r.keys, r.series)
  {
    PruneTableValid(t.keys, t.series, ts, cutoff);
  }

  /** Pruning a dict at one cutoff and then another is pruning it once at the later cutoff. */
  lemma PruneKeyedTwice<T>(t: Keyed<T>, ts: T -> real, c1: real, c2: real)
    ensures PruneKeyed(PruneKeyed(t, ts, c1), ts, c2) == PruneKeyed(t, ts, if c1 >= c2 then c1 else c2)
  {
    PruneKeysTwice(t.keys, t.series, ts, c1, c2);
    PruneSeriesTwice(t.series, ts, c1, c2);
  }

  /** Appending to a table and pruning the result leaves a table. */
  lemma AppendKeyedValid<T>(t: Keyed<T>, key: string, e: T, ts: T -> real, cutoff: real)
    requires Table(t.keys, t.series)
    ensures var r := PruneKeyed(AppendKeyed(t, key, e), ts, cutoff); Table(r.keys, r.series)
  {
    AppendTable(t.keys, t.series, key, e);
    PruneKeyedValid(AppendKeyed(t, key, e), ts, cutoff);
  }

  /** An entry appended and then pruned at a cutoff it is not older than stays, as the newest entry of its key. */
  lemma AppendKeyedNewest<T>(t: Keyed<T>, key: string, e: T, ts: T -> real, cutoff: real)
    requires ts(e) >= cutoff
    ensures var r := PruneKeyed(AppendKeyed(t, key, e), ts, cutoff);
      key in r.series && Newest(r.series[key]) == e
  {
    var a := AppendKeyed(t, key, e);
    var prior := if key in t.series then t.series[key] else [];
    assert a.series[key] == prior + [e];
    PrunedKeepsNewest(prior, e, ts, cutoff);
  }

  /** The key of an entry that survives pruning stays in the key order. */
  lemma AppendKeyedListed<T>(t: Keyed<T>, key: string, e: T, ts: T -> real, cutoff: real)
    requires forall k :: k in t.series ==> k in t.keys
    requires ts(e) >= cutoff
    ensures key in PruneKeyed(AppendKeyed(t, key, e), ts, cutoff).keys
  {
    var a := AppendKeyed(t, key, e);
    assert key in a.keys;
    AppendKeyedNewest(t, key, e, ts, cutoff);
    PruneKeysMembers(a.keys, a.series, ts, cutoff);
  }

  /** The retention cutoff of `_prune_locked`: entries older than this go. */
  function Cutoff(reference: real, retention: int): real {
    reference - retention as real
  }

  /** Everything the store holds: the two dicts of deques and the alerts. */
  datatype Contents = Contents(xdp: Keyed<XdpEntry>, integrity: Keyed<IntegrityEntry>, alerts: seq<IntegrityEntry>)

  /** Both dicts are tables: distinct keys naming exactly the non-empty series. */
  ghost predicate ValidContents(c: Contents) {
    Table(c.xdp.keys, c.xdp.series) && Table(c.integrity.keys, c.integrity.series)
  }

  /** `_prune_locked(reference)`: nothing when retention is off, otherwise everything older than `reference - retention` goes. */
  function PruneContents(c: Contents, retention: int, reference: real): Contents {
    if retention <= 0 then c
    else
      var cutoff := Cutoff(reference, retention);
      Contents(PruneKeyed(c.xdp, XdpTs, cutoff), PruneKeyed(c.integrity, IntegrityTs, cutoff), Pruned(c.alerts, IntegrityTs, cutoff))
  }

  /** The stored contents after `add_xdp_payload` appended `e` under `key` and pruned at its timestamp. */
  function AddXdp(c: Contents, retention: int, key: string, e: XdpEntry): Contents {
    PruneContents(c.(xdp := AppendKeyed(c.xdp, key, e)), retention, e.timestamp)
  }

  /** The stored contents after `add_integrity_payload` appended `e` (and, when not ok, alerted it) and pruned at its timestamp. */
  function AddIntegrity(c: Contents, retention: int, key: string, e: IntegrityEntry): Contents {
    var alerts := if e.isOk then c.alerts else c.alerts + [e];
    PruneContents(Contents(c.xdp, AppendKeyed(c.integrity, key, e), alerts), retention, e.timestamp)
  }

  /** Pruning keeps both dicts tables, so no key is left with an empty series. */
  lemma PruneContentsValid(c: Contents, retention: int, reference: real)
    requires ValidContents(c)
    ensures ValidContents(PruneContents(c, retention, reference))
  {
    if retention > 0 {
      var cutoff := Cutoff(reference, retention);
      PruneKeyedValid(c.xdp, XdpTs, cutoff);
      PruneKeyedValid(c.integrity, IntegrityTs, cutoff);
    }
  }

  /**
   * Pruning at one reference time and then at another is pruning once at the
   * later of the two: a prune at an older payload's timestamp after a newer
   * one removes nothing more.
   */
  lemma PruneContentsTwice(c: Contents, retention: int, t1: real, t2: real)
    ensures PruneContents(PruneContents(c, retention, t1), retention, t2) == PruneContents(c, retention, if t1 >= t2 then t1 else t2)
  {
    if retention > 0 {
      var c1, c2 := Cutoff(t1, retention), Cutoff(t2, retention);
      assert (if c1 >= c2 then c1 else c2) == Cutoff(if t1 >= t2 then t1 else t2, retention);
      PruneKeyedTwice(c.xdp, XdpTs, c1, c2);
      PruneKeyedTwice(c.integrity, IntegrityTs, c1, c2);
      PrunedTwice(c.alerts, IntegrityTs, c1, c2);
    }
  }

  /** A sample just added survives the pruning that follows it, as the newest sample of its key. */
  lemma AddXdpKeepsEntry(c: Contents, retention: int, key: string, e: XdpEntry)
    requires ValidContents(c)
    ensures var r := AddXdp(c, retention, key, e);
      && ValidContents(r)
      && key in r.xdp.series && key in r.xdp.keys
      && Newest(r.xdp.series[key]) == e
  {
    AppendTable(c.xdp.keys, c.xdp.series, key, e);
    if retention > 0 {
      var cutoff := Cutoff(e.timestamp, retention);
      AppendKeyedValid(c.xdp, key, e, XdpTs, cutoff);
      AppendKeyedNewest(c.xdp, key, e, XdpTs, cutoff);
      AppendKeyedListed(c.xdp, key, e, XdpTs, cutoff);
      PruneKeyedValid(c.integrity, IntegrityTs, cutoff);
    }
  }

  /**
   * An event just added survives the pruning that follows it, as the newest
   * event of its key, and a not-ok event is also the newest alert; an ok event
   * leaves the alerts as pruning alone leaves them.
   */
  lemma AddIntegrityKeepsEntry(c: Contents, retention: int, key: string, e: IntegrityEntry)
    requires ValidContents(c)
    ensures var r := AddIntegrity(c, retention, key, e);
      && ValidContents(r)
      && key in r.integrity.series && key in r.integrity.keys
      && Newest(r.integrity.series[key]) == e
      && (!e.isOk ==> r.alerts != [] && Newest(r.alerts) == e)
      && (e.isOk ==> r.alerts == PruneContents(c, retention, e.timestamp).alerts)
  {
    AppendTable(c.integrity.keys, c.integrity.series, key, e);
    if retention > 0 {
      var cutoff := Cutoff(e.timestamp, retention);
      AppendKeyedValid(c.integrity, key, e, IntegrityTs, cutoff);
      AppendKeyedNewest(c.integrity, key, e, IntegrityTs, cutoff);
      AppendKeyedListed(c.integrity, key, e, IntegrityTs, cutoff);
      PruneKeyedValid(c.xdp, XdpTs, cutoff);
      if !e.isOk {
        PrunedKeepsNewest(c.alerts, e, IntegrityTs, cutoff);
      }
    }
  }

  /** The three loops of `_prune_locked`: both dicts pruned key by key, the alerts through `_prune_deque`. */
  method PruneAll(c: Contents, retention: int, reference: real) returns (r: Contents)
    requires ValidContents(c)
    ensures r == PruneContents(c, retention, reference)
  {
    if retention <= 0 {
      return c;
    }
    var cutoff := Cutoff(reference, retention);
    var xdpKeys, xdpSeries := PruneTable(c.xdp.keys, c.xdp.series, XdpTs, cutoff);
    var integrityKeys, integritySeries := PruneTable(c.integrity.keys, c.integrity.series, IntegrityTs, cutoff);
    var alerts := PruneDeque(c.alerts, IntegrityTs, cutoff);
    r := Contents(Keyed(xdpKeys, xdpSeries), Keyed(integrityKeys, integritySeries), alerts);
  }

  class MetricStore {
    /** Stored but never enforced: retention is purely time-based. */
    const xdpPoints: int
    const integrityPoints: int
    const retentionSeconds: int

    var xdpKeys: seq<string>
    var xdpSeries: map<string, seq<XdpEntry>>
    var integrityKeys: seq<string>
    var integritySeries: map<string, seq<IntegrityEntry>>
    var alerts: seq<IntegrityEntry>

    function Snapshot(): Contents
      reads this
    {
      Contents(Keyed(xdpKeys, xdpSeries), Keyed(integrityKeys, integritySeries), alerts)
    }

    ghost predicate Valid()
      reads this
    {
      ValidContents(Snapshot())
    }

    constructor(xdpPoints: int, integrityPoints: int, retentionSeconds: int)
      ensures Valid()
      ensures this.xdpPoints == xdpPoints && this.integrityPoints == integrityPoints && this.retentionSeconds == retentionSeconds
      ensures Snapshot() == Contents(Keyed([], map[]), Keyed([], map[]), [])
    {
      this.xdpPoints := xdpPoints;
      this.integrityPoints := integrityPoints;
      this.retentionSeconds := retentionSeconds;
      xdpKeys, xdpSeries := [], map[];
      integrityKeys, integritySeries := [], map[];
      alerts := [];
    }

    /** Replaces everything the store holds. */
    method Replace(c: Contents)
      modifies this
      ensures Snapshot() == c
    {
      xdpKeys, xdpSeries, integrityKeys, integritySeries, alerts := c.xdp.keys, c.xdp.series, c.integrity.keys, c.integrity.series, c.alerts;
    }

    /** `_prune_locked(reference)`, with `time.time()` passed in by the caller when there is no reference. */
    method PruneLocked(reference: real)
      requires Valid()
      modifies this
      ensures Valid()
      ensures Snapshot() == PruneContents(old(Snapshot()), retentionSeconds, reference)
    {
      PruneContentsValid(Snapshot(), retentionSeconds, reference);
      var c := PruneAll(Snapshot(), retentionSeconds, reference);
      Replace(c);
    }

    /**
     * `add_xdp_payload`: the key and the stored entry, or what building the
     * entry raises (a time `_isoformat` cannot render, a truthy non-dict
     * `metrics`), which stores nothing.
     */
    method AddXdpPayload(payload: map<string, Value>, source: Option<string>, now: real)
      returns (r: Result<(string, XdpEntry), Exception>)
      requires Valid()
      modifies this
      ensures Valid()
      ensures XdpEntryOf(payload, source, now).Err? ==> r.Err? && r.error == XdpEntryOf(payload, source, now).error && Snapshot() == old(Snapshot())
      ensures XdpEntryOf(payload, source, now).Ok? ==>
        && r == Ok((XdpKey(payload), XdpEntryOf(payload, source, now).value))
        && Snapshot() == AddXdp(old(Snapshot()), retentionSeconds, r.value.0, r.value.1)
    {
      var entry := XdpEntryOf(payload, source, now);
      if entry.Err? {
        return Err(entry.error);
      }
      var key := XdpKey(payload);
      var before := Snapshot();
      AppendTable(before.xdp.keys, before.xdp.series, key, entry.value);
      var appended := before.(xdp := AppendKeyed(before.xdp, key, entry.value));
      PruneContentsValid(appended, retentionSeconds, entry.value.timestamp);
      var c := PruneAll(appended, retentionSeconds, entry.value.timestamp);
      Replace(c);
      r := Ok((key, entry.value));
    }

    /**
     * `add_integrity_payload`: the key, the stored entry and whether it raised
     * an alert, or what building the entry raises (an event or item time
     * `_isoformat` cannot render, a non-iterable batch), which stores nothing.
     */
    method AddIntegrityPayload(payload: map<string, Value>, source: Option<string>,
                               defaults: Option<map<string, Value>>, now: real)
      returns (r: Result<(string, IntegrityEntry, bool), Exception>)
      requires Valid()
      modifies this
      ensures Valid()
      ensures var expected := IntegrityEntryOf(payload, source, defaults, now);
        && (expected.Err? ==> r.Err? && r.error == expected.error && Snapshot() == old(Snapshot()))
        && (expected.Ok? ==>
              && r.Ok? && (r.value.0, r.value.1) == expected.value && r.value.2 == !r.value.1.isOk
              && Snapshot() == AddIntegrity(old(Snapshot()), retentionSeconds, r.value.0, r.value.1))
    {
      var built := BuildIntegrityEntry(payload, source, defaults, now);
      if built.Err? {
        return Err(built.error);
      }
      var (key, entry) := built.value;
      var before := Snapshot();
      AppendTable(before.integrity.keys, before.integrity.series, key, entry);
      var alerted := if entry.isOk then before.alerts else before.alerts + [entry];
      var appended := Contents(before.xdp, AppendKeyed(before.integrity, key, entry), alerted);
      PruneContentsValid(appended, retentionSeconds, entry.timestamp);
      var c := PruneAll(appended, retentionSeconds, entry.timestamp);
      Replace(c);
      r := Ok((key, entry, !entry.isOk));
    }

    /** `snapshot()`: every series and the alerts, after pruning at `now`. */
    method TakeSnapshot(now: real) returns (c: Contents)
      requires Valid()
      modifies this
      ensures Valid()
      ensures c == Snapshot() && c == PruneContents(old(Snapshot()), retentionSeconds, now)
    {
      PruneLocked(now);
      c := Contents(Keyed(xdpKeys, xdpSeries), Keyed(integrityKeys, integritySeries), alerts);
    }

    /** `xdp_snapshot()`: the bandwidth series in key order, after pruning at `now`. */
    method XdpSnapshot(now: real) returns (keys: seq<string>, series: map<string, seq<XdpEntry>>)
      requires Valid()
      modifies this
      ensures Valid()
      ensures Snapshot() == PruneContents(old(Snapshot()), retentionSeconds, now)
      ensures keys == xdpKeys && series == xdpSeries
    {
      PruneLocked(now);
      keys, series := xdpKeys, xdpSeries;
    }

    /** `integrity_snapshot()`: the integrity series in key order, after pruning at `now`. */
    method IntegritySnapshot(now: real) returns (keys: seq<string>, series: map<string, seq<IntegrityEntry>>)
      requires Valid()
      modifies this
      ensures Valid()
      ensures Snapshot() == PruneContents(old(Snapshot()), retentionSeconds, now)
      ensures keys == integrityKeys && series == integritySeries
    {
      PruneLocked(now);
      keys, series := integrityKeys, integritySeries;
    }

    /** `alerts()`: the alerts, oldest first, after pruning at `now`. */
    method Alerts(now: real) returns (r: seq<IntegrityEntry>)
      requires Valid()
      modifies this
      ensures Valid()
      ensures Snapshot() == PruneContents(old(Snapshot()), retentionSeconds, now)
      ensures r == alerts
    {
      PruneLocked(now);
      r := alerts;
    }

    /** `integrity_keys()`: one row per integrity key, sorted by host and interface, after pruning at `now`. */
    method IntegrityKeys(now: real) returns (records: seq<KeyRecord>)
      requires Valid()
      modifies this
      ensures Valid()
      ensures Snapshot() == PruneContents(old(Snapshot()), retentionSeconds, now)
      ensures records == Sort(KeyRecords(integrityKeys, integritySeries), HostInterfaceBefore)
    {
      PruneLocked(now);
      records := CollectKeyRecords(integrityKeys, integritySeries);
    }

    /** `integrity_series(...)`: the matching events in timestamp order, the newest `limit` of them, after pruning at `now`. */
    method IntegritySeries(f: SeriesFilter, limit: Option<int>, now: real) returns (records: seq<SeriesRecord>)
      requires Valid()
      modifies this
      ensures Valid()
      ensures Snapshot() == PruneContents(old(Snapshot()), retentionSeconds, now)
      ensures records == Limited(Sort(Matching(integrityKeys, integritySeries, f), ByTimestamp), limit)
    {
      PruneLocked(now);
      records := SeriesQuery(integrityKeys, integritySeries, f, limit);
    }

    /**
     * `latest_xdp_entry()`: after pruning at `now`, the key whose newest sample
     * has the highest timestamp, with that sample; on a tie the key inserted
     * last wins.
     */
    method LatestXdpEntry(now: real) returns (r: Option<(string, XdpEntry)>)
      requires Valid()
      modifies this
      ensures Valid()
      ensures Snapshot() == PruneContents(old(Snapshot()), retentionSeconds, now)
      ensures r.None? <==> xdpKeys == []
      ensures r.Some? ==> r.value.0 in xdpSeries && r.value.1 == Newest(xdpSeries[r.value.0])
      ensures r.Some? ==> forall k :: k in xdpSeries ==> Newest(xdpSeries[k]).timestamp <= r.value.1.timestamp
      ensures r.Some? ==> forall j, j' :: 0 <= j < j' < |xdpKeys| && xdpKeys[j] == r.value.0 ==>
        Newest(xdpSeries[xdpKeys[j']]).timestamp < r.value.1.timestamp
    {
      PruneLocked(now);
      r := LatestEntry(xdpKeys, xdpSeries);
      if r.Some? {
        forall k | k in xdpSeries ensures Newest(xdpSeries[k]).timestamp <= r.value.1.timestamp {
          var j :| 0 <= j < |xdpKeys| && xdpKeys[j] == k;
          assert Present(xdpSeries, xdpKeys[j]);
        }
        forall j, j' | 0 <= j < j' < |xdpKeys| && xdpKeys[j] == r.value.0
          ensures Newest(xdpSeries[xdpKeys[j']]).timestamp < r.value.1.timestamp
        {
          assert Present(xdpSeries, xdpKeys[j']);
        }
      } else if xdpKeys != [] {
        assert Present(xdpSeries, xdpKeys[0]);
      }
    }

    /** `xdp_buckets()`: one view per stored sample in start order; it does not prune and changes nothing. */
    method XdpBuckets() returns (r: Result<seq<BucketView>, Exception>)
      ensures r == SortedViews(xdpKeys, xdpSeries)
    {
      r := CollectBuckets(xdpKeys, xdpSeries);
    }
  }
}

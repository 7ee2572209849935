/**
 * The read side of MetricStore in backend/store.py, over the tables it keeps:
 * `integrity_keys`, `integrity_series`, `latest_xdp_entry` and `xdp_buckets`.
 * Each query is a method with the loops of the source, proved against a
 * specification function; the lemmas state what the result means.
 */
module StoreQueries {
  import opened Wrappers
  import opened Text
  import opened PyValue
  import opened Sorting
  import opened StoreEntries
  import opened StoreTables

  /** `series[-1]`. */
  function Newest<T>(s: seq<T>): T
    requires s != []
  {
    s[|s| - 1]
  }

  /** Whether the dict holds a non-empty series under `key`. */
  predicate Present<T>(series: map<string, seq<T>>, key: string) {
    key in series && series[key] != []
  }

  /** Comparing strings with `<` is a strict weak order. */
  lemma StrLessOrder()
    ensures StrictWeakOrder(StrLess)
  {
    forall a ensures !StrLess(a, a) {
      StrLessIrreflexive(a);
    }
    forall a, b, c | StrLess(a, b) && StrLess(b, c) ensures StrLess(a, c) {
      StrLessTransitive(a, b, c);
    }
    forall a, b, c | !StrLess(a, b) && !StrLess(b, c) ensures !StrLess(a, c) {
      StrLessTotal(a, b);
      StrLessTotal(b, c);
      if StrLess(a, c) {
        if a != b { StrLessTransitive(c, b, a); StrLessTransitive(a, c, a); StrLessIrreflexive(a); }
        else { StrLessTransitive(a, c, b); StrLessIrreflexive(a); }
      }
    }
  }

  // ---------------------------------------------------------------------------
  // integrity_keys

  /** One row of `integrity_keys`: the key, the newest entry's host and interface, and the event types seen. */
  datatype KeyRecord = KeyRecord(key: string, hostname: string, interface: string, types: seq<string>)

  /** The non-empty event types of a series, in order, with repetitions. */
  function EventTypes(s: seq<IntegrityEntry>): (ts: seq<string>)
    ensures forall t :: t in ts ==> t != []
  {
    if s == [] then []
    else
      var t := s[|s| - 1].eventType;
      EventTypes(s[..|s| - 1]) + (if t != [] then [t] else [])
  }

  /** A type is listed exactly when some entry of the series has it. */
  lemma {:induction false} EventTypesMembers(s: seq<IntegrityEntry>)
    ensures forall k :: 0 <= k < |s| && s[k].eventType != [] ==> s[k].eventType in EventTypes(s)
    ensures forall t :: t in EventTypes(s) ==> exists k :: 0 <= k < |s| && s[k].eventType == t
  {
    if s != [] {
      var init := s[..|s| - 1];
      EventTypesMembers(init);
      forall t | t in EventTypes(s) ensures exists k :: 0 <= k < |s| && s[k].eventType == t {
        if t in EventTypes(init) {
          var k :| 0 <= k < |init| && init[k].eventType == t;
          assert s[k] == init[k];
        } else {
          assert s[|s| - 1].eventType == t;
        }
      }
      forall k | 0 <= k < |s| && s[k].eventType != [] ensures s[k].eventType in EventTypes(s) {
        if k < |init| {
          assert s[k] == init[k];
        }
      }
    }
  }

  /** The sequence without repetitions, first occurrences kept: a set's elements. */
  function Dedup(xs: seq<string>): (r: seq<string>)
    ensures Distinct(r)
    ensures forall x :: x in r <==> x in xs
  {
    if xs == [] then []
    else
      var init, x := Dedup(xs[..|xs| - 1]), xs[|xs| - 1];
      assert forall y :: y in xs <==> y in xs[..|xs| - 1] || y == x;
      if x in init then init
      else
        assert forall i :: 0 <= i < |init| ==> (init + [x])[i] == init[i];
        init + [x]
  }

  /** `sorted({... types ...})`. */
  function TypesOf(s: seq<IntegrityEntry>): seq<string> {
    Sort(Dedup(EventTypes(s)), StrLess)
  }

  lemma {:induction false} TwiceCounted<T>(s: seq<T>, i: nat, j: nat)
    requires i < j < |s| && s[i] == s[j]
    ensures multiset(s)[s[i]] >= 2
  {
    assert s == s[..j] + [s[j]] + s[j + 1..];
    assert s[i] in s[..j];
  }

  lemma {:induction false} DistinctCountedOnce(s: seq<string>, x: string)
    requires Distinct(s)
    ensures multiset(s)[x] <= 1
  {
    if s != [] {
      var init := s[..|s| - 1];
      assert s == init + [s[|s| - 1]];
      assert Distinct(init) by {
        forall i, j | 0 <= i < j < |init| ensures init[i] != init[j] {
          assert init[i] == s[i] && init[j] == s[j];
        }
      }
      DistinctCountedOnce(init, x);
      if x == s[|s| - 1] {
        assert x !in init;
      }
    }
  }

  /** The types of a key are strictly ascending, and are exactly the non-empty types of its entries. */
  lemma TypesOfSpec(s: seq<IntegrityEntry>)
    ensures forall i, j :: 0 <= i < j < |TypesOf(s)| ==> StrLess(TypesOf(s)[i], TypesOf(s)[j])
    ensures forall k :: 0 <= k < |s| && s[k].eventType != [] ==> s[k].eventType in TypesOf(s)
    ensures forall t :: t in TypesOf(s) ==> t != [] && exists k :: 0 <= k < |s| && s[k].eventType == t
  {
    var d := Dedup(EventTypes(s));
    var r := TypesOf(s);
    StrLessOrder();
    SortSorted(d, StrLess);
    SortPermutes(d, StrLess);
    EventTypesMembers(s);
    assert forall t :: t in r <==> t in d by {
      forall t ensures t in r <==> t in d {
        assert t in r <==> t in multiset(r);
        assert t in d <==> t in multiset(d);
      }
    }
    forall i, j | 0 <= i < j < |r| ensures StrLess(r[i], r[j]) {
      if r[i] == r[j] {
        TwiceCounted(r, i, j);
        DistinctCountedOnce(d, r[i]);
        assert false;
      }
      StrLessTotal(r[i], r[j]);
    }
  }

  /** The row of one key. */
  function KeyRecordOf(key: string, s: seq<IntegrityEntry>): KeyRecord
    requires s != []
  {
    KeyRecord(key, Newest(s).hostname, Newest(s).interface, TypesOf(s))
  }

  /** The rows in dict order, one per non-empty series. */
  function KeyRecords(keys: seq<string>, series: map<string, seq<IntegrityEntry>>): seq<KeyRecord> {
    if keys == [] then []
    else
      var k := keys[|keys| - 1];
      KeyRecords(keys[..|keys| - 1], series)
        + (if Present(series, k) then [KeyRecordOf(k, series[k])] else [])
  }

  /** On a table there is one row per key, in key order. */
  lemma {:induction false} KeyRecordsOfTable(keys: seq<string>, series: map<string, seq<IntegrityEntry>>)
    requires forall i :: 0 <= i < |keys| ==> keys[i] in series && series[keys[i]] != []
    ensures |KeyRecords(keys, series)| == |keys|
    ensures forall i :: 0 <= i < |keys| ==> KeyRecords(keys, series)[i] == KeyRecordOf(keys[i], series[keys[i]])
  {
    if keys != [] {
      var init, last := keys[..|keys| - 1], keys[|keys| - 1];
      assert forall i :: 0 <= i < |init| ==> init[i] == keys[i];
      KeyRecordsOfTable(init, series);
      var prev := KeyRecords(init, series);
      assert Present(series, last);
      var r := prev + [KeyRecordOf(last, series[last])];
      assert KeyRecords(keys, series) == r;
      forall i | 0 <= i < |keys| ensures r[i] == KeyRecordOf(keys[i], series[keys[i]]) {
        if i < |init| {
          assert r[i] == prev[i];
        } else {
          assert i == |init| && keys[i] == last;
        }
      }
    }
  }

  /** The sort key `(hostname, interface)`, compared as a tuple. */
  predicate HostInterfaceBefore(a: KeyRecord, b: KeyRecord) {
    StrLess(a.hostname, b.hostname) || (a.hostname == b.hostname && StrLess(a.interface, b.interface))
  }

  /** Comparing `(hostname, interface)` tuples is a strict weak order. */
  lemma HostInterfaceOrder()
    ensures StrictWeakOrder(HostInterfaceBefore)
  {
    StrLessOrder();
    forall a, b, c | !HostInterfaceBefore(a, b) && !HostInterfaceBefore(b, c) ensures !HostInterfaceBefore(a, c) {
      StrLessTotal(a.hostname, b.hostname);
      StrLessTotal(b.hostname, c.hostname);
      StrLessTotal(a.interface, b.interface);
      StrLessTotal(b.interface, c.interface);
    }
  }

  /** The loop of `integrity_keys` followed by its sort. */
  method CollectKeyRecords(keys: seq<string>, series: map<string, seq<IntegrityEntry>>) returns (records: seq<KeyRecord>)
    ensures records == Sort(KeyRecords(keys, series), HostInterfaceBefore)
  {
    records := [];
    var i := 0;
    while i < |keys|
      invariant 0 <= i <= |keys|
      invariant records == KeyRecords(keys[..i], series)
    {
      assert keys[..i + 1][..i] == keys[..i];
      var key := keys[i];
      if Present(series, key) {
        records := records + [KeyRecordOf(key, series[key])];
      }
      i := i + 1;
    }
    assert keys[..i] == keys;
    records := Sort(records, HostInterfaceBefore);
  }

  /**
   * The rows of a table: one per key, sorted by `(hostname, interface)`,
   * rows with the same host and interface in dict order.
   */
  lemma KeyRecordsSorted(keys: seq<string>, series: map<string, seq<IntegrityEntry>>, k: KeyRecord)
    requires Table(keys, series)
    ensures var r := Sort(KeyRecords(keys, series), HostInterfaceBefore);
      && |r| == |keys|
      && multiset(r) == multiset(KeyRecords(keys, series))
      && Sorted(r, HostInterfaceBefore)
      && TiedWith(r, k, HostInterfaceBefore) == TiedWith(KeyRecords(keys, series), k, HostInterfaceBefore)
  {
    KeyRecordsOfTable(keys, series);
    HostInterfaceOrder();
    SortSorted(KeyRecords(keys, series), HostInterfaceBefore);
    SortPermutes(KeyRecords(keys, series), HostInterfaceBefore);
    SortStable(KeyRecords(keys, series), k, HostInterfaceBefore);
  }

  // ---------------------------------------------------------------------------
  // integrity_series

  /** The optional filters of `integrity_series`; an absent or empty filter lets everything through. */
  datatype SeriesFilter = SeriesFilter(
    exchange: Option<string>,
    symbol: Option<string>,
    hostname: Option<string>,
    interface: Option<string>,
    eventType: Option<string>)

  /** `not f or actual == f`. */
  predicate Selects(f: Option<string>, actual: string) {
    f.None? || f.value == [] || actual == f.value
  }

  predicate Matches(e: IntegrityEntry, f: SeriesFilter) {
    && Selects(f.exchange, e.exchange)
    && Selects(f.symbol, e.symbol)
    && Selects(f.hostname, e.hostname)
    && Selects(f.interface, e.interface)
    && Selects(f.eventType, e.eventType)
  }

  /** A row of `integrity_series`: the entry together with its series key. */
  datatype SeriesRecord = SeriesRecord(key: string, entry: IntegrityEntry)

  /** The matching entries of one series, in order. */
  function MatchingPoints(key: string, s: seq<IntegrityEntry>, f: SeriesFilter): seq<SeriesRecord> {
    if s == [] then []
    else
      var e := s[|s| - 1];
      MatchingPoints(key, s[..|s| - 1], f) + (if Matches(e, f) then [SeriesRecord(key, e)] else [])
  }

  /** The matching entries of all series, in dict order and then series order. */
  function Matching(keys: seq<string>, series: map<string, seq<IntegrityEntry>>, f: SeriesFilter): seq<SeriesRecord> {
    if keys == [] then []
    else
      var k := keys[|keys| - 1];
      Matching(keys[..|keys| - 1], series, f) + (if k in series then MatchingPoints(k, series[k], f) else [])
  }

  /** A series contributes exactly its matching entries. */
  lemma {:induction false} MatchingPointsMembers(key: string, s: seq<IntegrityEntry>, f: SeriesFilter)
    ensures forall x :: x in MatchingPoints(key, s, f) <==> x.key == key && x.entry in s && Matches(x.entry, f)
  {
    if s != [] {
      var init := s[..|s| - 1];
      MatchingPointsMembers(key, init, f);
      assert forall e :: e in s <==> e in init || e == s[|s| - 1];
    }
  }

  /** The rows are exactly the matching entries of the series of listed keys. */
  lemma {:induction false} MatchingMembers(keys: seq<string>, series: map<string, seq<IntegrityEntry>>, f: SeriesFilter)
    ensures forall x :: x in Matching(keys, series, f) <==>
      x.key in keys && x.key in series && x.entry in series[x.key] && Matches(x.entry, f)
  {
    if keys != [] {
      var init, k := keys[..|keys| - 1], keys[|keys| - 1];
      MatchingMembers(init, series, f);
      if k in series {
        MatchingPointsMembers(k, series[k], f);
      }
      assert forall y :: y in keys <==> y in init || y == k;
    }
  }

  /** The nested loops of `integrity_series`. */
  method CollectMatching(keys: seq<string>, series: map<string, seq<IntegrityEntry>>, f: SeriesFilter)
    returns (records: seq<SeriesRecord>)
    ensures records == Matching(keys, series, f)
  {
    records := [];
    var i := 0;
    while i < |keys|
      invariant 0 <= i <= |keys|
      invariant records == Matching(keys[..i], series, f)
    {
      assert keys[..i + 1][..i] == keys[..i];
      var key := keys[i];
      if key in series {
        var s := series[key];
        var j := 0;
        while j < |s|
          invariant 0 <= j <= |s|
          invariant records == Matching(keys[..i], series, f) + MatchingPoints(key, s[..j], f)
        {
          assert s[..j + 1][..j] == s[..j];
          if Matches(s[j], f) {
            records := records + [SeriesRecord(key, s[j])];
          }
          j := j + 1;
        }
        assert s[..j] == s;
      }
      i := i + 1;
    }
    assert keys[..i] == keys;
  }

  /** The sort key `timestamp`. */
  predicate ByTimestamp(a: SeriesRecord, b: SeriesRecord) {
    a.entry.timestamp < b.entry.timestamp
  }

  lemma ByTimestampOrder()
    ensures StrictWeakOrder(ByTimestamp)
  {
  }

  /** `records[-limit:]` when a positive limit is exceeded. */
  function Limited<T>(s: seq<T>, limit: Option<int>): (r: seq<T>)
    ensures |r| <= |s| && r == s[|s| - |r|..]
    ensures limit.Some? && limit.value > 0 ==> |r| == if |s| > limit.value then limit.value else |s|
    ensures limit.None? || limit.value <= 0 ==> r == s
  {
    if limit.Some? && limit.value > 0 && |s| > limit.value then s[|s| - limit.value..] else s
  }

  /** `integrity_series` after pruning. */
  method SeriesQuery(keys: seq<string>, series: map<string, seq<IntegrityEntry>>, f: SeriesFilter, limit: Option<int>)
    returns (records: seq<SeriesRecord>)
    ensures records == Limited(Sort(Matching(keys, series, f), ByTimestamp), limit)
  {
    records := CollectMatching(keys, series, f);
    records := Sort(records, ByTimestamp);
    if limit.Some? && limit.value > 0 && |records| > limit.value {
      records := records[|records| - limit.value..];
    }
  }

  /** A suffix of a sorted sequence is sorted. */
  lemma SortedSuffix<T>(s: seq<T>, n: nat, before: (T, T) -> bool)
    requires Sorted(s, before) && n <= |s|
    ensures Sorted(s[n..], before)
  {
    forall i, j | 0 <= i < j < |s[n..]| ensures !before(s[n..][j], s[n..][i]) {
      assert s[n..][j] == s[n + j] && s[n..][i] == s[n + i];
    }
  }

  /** The newest `limit` of a sorted sequence are still sorted. */
  lemma LimitedSorted<T(!new)>(s: seq<T>, before: (T, T) -> bool, limit: Option<int>)
    requires StrictWeakOrder(before)
    ensures Sorted(Limited(Sort(s, before), limit), before)
  {
    var sorted := Sort(s, before);
    SortSorted(s, before);
    SortedSuffix(sorted, |sorted| - |Limited(sorted, limit)|, before);
  }

  /** Rows ascend by timestamp. */
  lemma SeriesQuerySorted(keys: seq<string>, series: map<string, seq<IntegrityEntry>>, f: SeriesFilter, limit: Option<int>)
    ensures Sorted(Limited(Sort(Matching(keys, series, f), ByTimestamp), limit), ByTimestamp)
  {
    ByTimestampOrder();
    LimitedSorted(Matching(keys, series, f), ByTimestamp, limit);
  }

  /** What a suffix holds, the whole holds. */
  lemma SuffixMember<T>(s: seq<T>, from: nat, x: T)
    requires from <= |s| && x in s[from..]
    ensures x in s
  {
    var i :| 0 <= i < |s[from..]| && s[from..][i] == x;
    assert s[from + i] == x;
  }

  /** A row of the limited, sorted sequence is one of the rows it was made from. */
  lemma LimitedSortedMember<T>(s: seq<T>, before: (T, T) -> bool, limit: Option<int>, x: T)
    requires x in Limited(Sort(s, before), limit)
    ensures x in s
  {
    var sorted := Sort(s, before);
    var r := Limited(sorted, limit);
    SuffixMember(sorted, |sorted| - |r|, x);
    SortPermutes(s, before);
    assert x in multiset(sorted);
  }

  /** Each row is a matching entry of its key's series. */
  lemma SeriesQueryRows(keys: seq<string>, series: map<string, seq<IntegrityEntry>>, f: SeriesFilter, limit: Option<int>, x: SeriesRecord)
    requires x in Limited(Sort(Matching(keys, series, f), ByTimestamp), limit)
    ensures x.key in keys && x.key in series && x.entry in series[x.key] && Matches(x.entry, f)
  {
    LimitedSortedMember(Matching(keys, series, f), ByTimestamp, limit, x);
    MatchingMembers(keys, series, f);
  }

  /**
   * Without a positive limit every matching entry is returned, entries with
   * equal timestamps in dict and series order; with one, the newest `limit`.
   */
  lemma SeriesQueryComplete(keys: seq<string>, series: map<string, seq<IntegrityEntry>>, f: SeriesFilter, limit: Option<int>, k: SeriesRecord)
    ensures var all := Matching(keys, series, f);
      var r := Limited(Sort(all, ByTimestamp), limit);
      && (limit.None? || limit.value <= 0 ==> multiset(r) == multiset(all) && TiedWith(r, k, ByTimestamp) == TiedWith(all, k, ByTimestamp))
      && (limit.Some? && limit.value > 0 ==> |r| == if |all| > limit.value then limit.value else |all|)
  {
    ByTimestampOrder();
    SortPermutes(Matching(keys, series, f), ByTimestamp);
    SortStable(Matching(keys, series, f), k, ByTimestamp);
  }

  // ---------------------------------------------------------------------------
  // latest_xdp_entry

  /** The newest entry over all series: the highest newest timestamp, the last such key in dict order. */
  method LatestEntry(keys: seq<string>, series: map<string, seq<XdpEntry>>) returns (r: Option<(string, XdpEntry)>)
    requires Distinct(keys)
    ensures r.None? <==> forall j :: 0 <= j < |keys| ==> !Present(series, keys[j])
    ensures r.Some? ==> r.value.0 in keys && Present(series, r.value.0) && r.value.1 == Newest(series[r.value.0])
    ensures r.Some? ==> forall j :: 0 <= j < |keys| && Present(series, keys[j]) ==>
      Newest(series[keys[j]]).timestamp <= r.value.1.timestamp
    ensures r.Some? ==> forall j, j' :: 0 <= j < j' < |keys| && keys[j] == r.value.0 && Present(series, keys[j']) ==>
      Newest(series[keys[j']]).timestamp < r.value.1.timestamp
  {
    r := None;
    var latestTs := 0.0;
    var pos := 0;
    for i := 0 to |keys|
      invariant r.None? <==> forall j :: 0 <= j < i ==> !Present(series, keys[j])
      invariant r.Some? ==> pos < i && keys[pos] == r.value.0 && Present(series, keys[pos])
      invariant r.Some? ==> r.value.1 == Newest(series[keys[pos]]) && latestTs == r.value.1.timestamp
      invariant r.Some? ==> forall j :: 0 <= j < i && Present(series, keys[j]) ==> Newest(series[keys[j]]).timestamp <= latestTs
      invariant r.Some? ==> forall j :: pos < j < i && Present(series, keys[j]) ==> Newest(series[keys[j]]).timestamp < latestTs
    {
      var key := keys[i];
      if !Present(series, key) {
        continue;
      }
      var candidate := Newest(series[key]);
      var ts := candidate.timestamp;
      if r.None? || ts >= latestTs {
        r := Some((key, candidate));
        latestTs := ts;
        pos := i;
      }
    }
    if r.Some? {
      assert keys[pos] in keys;
    }
  }

  // ---------------------------------------------------------------------------
  // xdp_buckets

  /** The legacy bucket view of one stored sample. */
  datatype BucketView = BucketView(
    startTs: real,
    endTs: real,
    maxBps: real,
    avgBps: real,
    avgSource: string,
    maxSource: string,
    sampleCount: int)

  /** `point.get("window") or {}`, which must be a dict for `.get` to work. */
  function WindowOf(e: XdpEntry): (r: Result<map<string, Value>, Exception>)
    ensures r.Err? <==> Truthy(e.window) && !e.window.PyDict?
    ensures r.Err? ==> r.error == AttributeError
  {
    if !Truthy(e.window) then Ok(map[])
    else if e.window.PyDict? then Ok(e.window.fields)
    else Err(AttributeError)
  }

  /** The window length: the duration when positive, else the non-negative span from start to end. */
  function WindowDuration(start: real, duration: real, end: real): (d: real)
    ensures d >= 0.0
    ensures duration > 0.0 ==> d == duration
    ensures duration <= 0.0 && end >= start ==> d == end - start
    ensures duration <= 0.0 && end < start ==> d == 0.0
  {
    if duration > 0.0 then duration else if end - start > 0.0 then end - start else 0.0
  }

  /** The bucket view of a sample, or the exception `xdp_buckets` raises on it. */
  function BucketViewOf(e: XdpEntry): (r: Result<BucketView, Exception>)
    ensures r.Err? ==> r.error == AttributeError || r.error == TypeError || r.error == ValueError
    ensures WindowOf(e).Err? ==> r == Err(AttributeError)
    ensures r.Ok? ==> r.value.maxBps == e.maxBps && r.value.maxSource == "max_bps" && r.value.sampleCount == e.samples
    ensures r.Ok? && e.avgBps != 0.0 ==> r.value.avgSource == "avg_bps" && r.value.avgBps == e.avgBps
    ensures r.Ok? && e.bytesTotal <= 0 ==> r.value.avgSource == "avg_bps" && r.value.avgBps == e.avgBps
    ensures r.Ok? && r.value.avgSource != "avg_bps" ==>
      r.value.avgSource == "bytes_total" && e.avgBps == 0.0 && e.bytesTotal > 0 && r.value.avgBps > 0.0
  {
    match WindowOf(e)
    case Err(x) => Err(x)
    case Ok(w) =>
      match ToFloat(FirstTruthy([Get(w, "start"), PyFloat(e.timestamp), PyFloat(0.0)]))
      case Err(x) => Err(x)
      case Ok(start) =>
        match ToFloat(FirstTruthy([Get(w, "duration"), PyFloat(0.0)]))
        case Err(x) => Err(x)
        case Ok(duration) =>
          match ToFloat(FirstTruthy([Get(w, "end"), PyFloat(start + duration)]))
          case Err(x) => Err(x)
          case Ok(end) =>
            var span := WindowDuration(start, duration, end);
            var derived := e.avgBps == 0.0 && span > 0.0 && e.bytesTotal > 0;
            Ok(BucketView(
              startTs := start,
              endTs := end,
              maxBps := e.maxBps,
              avgBps := if derived then (e.bytesTotal as real * 8.0) / span else e.avgBps,
              avgSource := if derived then "bytes_total" else "avg_bps",
              maxSource := "max_bps",
              sampleCount := e.samples))
  }

  /** Without a window the bucket is the instant of the sample, with its own average. */
  lemma BucketWithoutWindow(e: XdpEntry)
    requires !Truthy(e.window)
    ensures BucketViewOf(e) == Ok(BucketView(e.timestamp, e.timestamp, e.maxBps, e.avgBps, "avg_bps", "max_bps", e.samples))
  {
    var w: map<string, Value> := map[];
    FirstTruthyOfThree(Get(w, "start"), PyFloat(e.timestamp), PyFloat(0.0));
    FirstTruthyOfTwo(Get(w, "duration"), PyFloat(0.0));
    FirstTruthyOfTwo(Get(w, "end"), PyFloat(e.timestamp + 0.0));
  }

  /**
   * A window with a start and a positive duration spans exactly that long,
   * and a zero average is recomputed from the byte count over the duration.
   */
  lemma BucketFromDuration(e: XdpEntry, start: real, duration: real)
    requires start != 0.0 && duration > 0.0
    requires e.window == PyDict(map["start" := PyFloat(start), "duration" := PyFloat(duration)])
    ensures var derived := e.avgBps == 0.0 && e.bytesTotal > 0;
      BucketViewOf(e) == Ok(BucketView(start, start + duration, e.maxBps,
        if derived then (e.bytesTotal as real * 8.0) / duration else e.avgBps,
        if derived then "bytes_total" else "avg_bps", "max_bps", e.samples))
  {
    var w := e.window.fields;
    assert Get(w, "start") == PyFloat(start);
    assert Get(w, "duration") == PyFloat(duration);
    assert Get(w, "end") == PyNone;
    FirstTruthyOfThree(Get(w, "start"), PyFloat(e.timestamp), PyFloat(0.0));
    FirstTruthyOfTwo(Get(w, "duration"), PyFloat(0.0));
    FirstTruthyOfTwo(Get(w, "end"), PyFloat(start + duration));
  }

  /** A window with a start and an end but no duration spans from start to end. */
  lemma BucketFromEnd(e: XdpEntry, start: real, end: real)
    requires start != 0.0 && end != 0.0 && end > start
    requires e.window == PyDict(map["start" := PyFloat(start), "end" := PyFloat(end)])
    ensures var derived := e.avgBps == 0.0 && e.bytesTotal > 0;
      BucketViewOf(e) == Ok(BucketView(start, end, e.maxBps,
        if derived then (e.bytesTotal as real * 8.0) / (end - start) else e.avgBps,
        if derived then "bytes_total" else "avg_bps", "max_bps", e.samples))
  {
    var w := e.window.fields;
    assert Get(w, "start") == PyFloat(start);
    assert Get(w, "duration") == PyNone;
    assert Get(w, "end") == PyFloat(end);
    FirstTruthyOfThree(Get(w, "start"), PyFloat(e.timestamp), PyFloat(0.0));
    FirstTruthyOfTwo(Get(w, "duration"), PyFloat(0.0));
    FirstTruthyOfTwo(Get(w, "end"), PyFloat(start + 0.0));
  }

  /** All stored samples, in dict order and then series order. */
  function Points(keys: seq<string>, series: map<string, seq<XdpEntry>>): seq<XdpEntry> {
    if keys == [] then []
    else
      var k := keys[|keys| - 1];
      Points(keys[..|keys| - 1], series) + (if k in series then series[k] else [])
  }

  /** One more key adds that key's samples, if it has any. */
  lemma PointsStep(keys: seq<string>, series: map<string, seq<XdpEntry>>, i: nat)
    requires i < |keys|
    ensures Points(keys[..i + 1], series) == Points(keys[..i], series) + (if keys[i] in series then series[keys[i]] else [])
  {
    assert keys[..i + 1][..i] == keys[..i];
  }

  lemma {:induction false} PointsConcat(a: seq<string>, b: seq<string>, series: map<string, seq<XdpEntry>>)
    ensures Points(a + b, series) == Points(a, series) + Points(b, series)
  {
    if b == [] {
      assert a + b == a;
    } else {
      var init := b[..|b| - 1];
      assert (a + b)[..|a + b| - 1] == a + init;
      assert (a + b)[|a + b| - 1] == b[|b| - 1];
      PointsConcat(a, init, series);
    }
  }

  /** `f` applied to each element in order: all the results, or the exception raised at the first element that fails. */
  function MapOk<A, B>(xs: seq<A>, f: A -> Result<B, Exception>): Result<seq<B>, Exception> {
    if xs == [] then Ok([])
    else
      match MapOk(xs[..|xs| - 1], f)
      case Err(x) => Err(x)
      case Ok(ys) =>
        match f(xs[|xs| - 1])
        case Err(x) => Err(x)
        case Ok(y) => Ok(ys + [y])
  }

  /** An exception raised on a prefix is the exception of the whole. */
  lemma {:induction false} MapOkErrSticks<A, B>(a: seq<A>, b: seq<A>, f: A -> Result<B, Exception>)
    requires MapOk(a, f).Err?
    ensures MapOk(a + b, f) == MapOk(a, f)
  {
    if b == [] {
      assert a + b == a;
    } else {
      var init := b[..|b| - 1];
      assert (a + b)[..|a + b| - 1] == a + init;
      MapOkErrSticks(a, init, f);
    }
  }

  /** The whole fails when any element fails. */
  lemma MapOkFails<A, B>(xs: seq<A>, i: nat, f: A -> Result<B, Exception>)
    requires i < |xs| && f(xs[i]).Err?
    ensures MapOk(xs, f).Err?
  {
    var prefix := xs[..i + 1];
    assert prefix[..i] == xs[..i];
    assert prefix[i] == xs[i];
    assert MapOk(prefix, f).Err?;
    assert xs == prefix + xs[i + 1..];
    MapOkErrSticks(prefix, xs[i + 1..], f);
  }

  /** When every element succeeds, there is one result per element, in order. */
  lemma {:induction false} MapOkSucceeds<A, B>(xs: seq<A>, f: A -> Result<B, Exception>)
    requires forall i :: 0 <= i < |xs| ==> f(xs[i]).Ok?
    ensures MapOk(xs, f).Ok? && |MapOk(xs, f).value| == |xs|
    ensures forall i :: 0 <= i < |xs| ==> MapOk(xs, f).value[i] == f(xs[i]).value
  {
    if xs != [] {
      var init := xs[..|xs| - 1];
      assert forall i :: 0 <= i < |init| ==> init[i] == xs[i];
      MapOkSucceeds(init, f);
      var ys := MapOk(init, f).value;
      var all := ys + [f(xs[|xs| - 1]).value];
      assert MapOk(xs, f) == Ok(all);
      forall i | 0 <= i < |xs| ensures all[i] == f(xs[i]).value {
        if i < |init| {
          assert all[i] == ys[i];
        }
      }
    }
  }

  /** An element that succeeds after a prefix that succeeds extends the results. */
  lemma MapOkStep<A, B>(done: seq<A>, s: seq<A>, j: nat, ys: seq<B>, f: A -> Result<B, Exception>)
    requires j < |s| && MapOk(done + s[..j], f) == Ok(ys) && f(s[j]).Ok?
    ensures MapOk(done + s[..j + 1], f) == Ok(ys + [f(s[j]).value])
  {
    assert (done + s[..j + 1])[..|done + s[..j + 1]| - 1] == done + s[..j];
  }

  /** An element that fails after a prefix that succeeds decides the outcome of the whole. */
  lemma MapOkStepErr<A, B>(done: seq<A>, s: seq<A>, j: nat, ys: seq<B>, f: A -> Result<B, Exception>)
    requires j < |s| && MapOk(done + s[..j], f) == Ok(ys) && f(s[j]).Err?
    ensures MapOk(done + s, f) == Err(f(s[j]).error)
  {
    var upto := done + s[..j + 1];
    assert upto[..|upto| - 1] == done + s[..j];
    assert MapOk(upto, f) == Err(f(s[j]).error);
    assert upto + s[j + 1..] == done + s;
    MapOkErrSticks(upto, s[j + 1..], f);
  }

  /** The sort key `start_ts`. */
  predicate ByStart(a: BucketView, b: BucketView) {
    a.startTs < b.startTs
  }

  lemma ByStartOrder()
    ensures StrictWeakOrder(ByStart)
  {
  }

  /** The result of `xdp_buckets`: the sorted views, or the exception of the first failing sample. */
  function SortedViews(keys: seq<string>, series: map<string, seq<XdpEntry>>): Result<seq<BucketView>, Exception> {
    match MapOk(Points(keys, series), BucketViewOf)
    case Err(x) => Err(x)
    case Ok(vs) => Ok(Sort(vs, ByStart))
  }

  /** All samples are those up to and including key `i` followed by those after it. */
  lemma PointsSplit(keys: seq<string>, series: map<string, seq<XdpEntry>>, i: nat)
    requires i < |keys|
    ensures Points(keys, series) == Points(keys[..i + 1], series) + Points(keys[i + 1..], series)
  {
    assert keys == keys[..i + 1] + keys[i + 1..];
    PointsConcat(keys[..i + 1], keys[i + 1..], series);
  }

  /** The inner loop of `xdp_buckets`: the views of one series' samples appended to those already built. */
  method AppendViews(ghost done: seq<XdpEntry>, s: seq<XdpEntry>, buckets: seq<BucketView>) returns (r: Result<seq<BucketView>, Exception>)
    requires MapOk(done, BucketViewOf) == Ok(buckets)
    ensures r == MapOk(done + s, BucketViewOf)
  {
    var out := buckets;
    assert done + s[..0] == done;
    var j := 0;
    while j < |s|
      invariant 0 <= j <= |s|
      invariant MapOk(done + s[..j], BucketViewOf) == Ok(out)
    {
      var view := BucketViewOf(s[j]);
      if view.Err? {
        MapOkStepErr(done, s, j, out, BucketViewOf);
        return Err(view.error);
      }
      MapOkStep(done, s, j, out, BucketViewOf);
      out := out + [view.value];
      j := j + 1;
    }
    assert s[..j] == s;
    r := Ok(out);
  }

  /** The nested loops of `xdp_buckets` followed by its sort. */
  method CollectBuckets(keys: seq<string>, series: map<string, seq<XdpEntry>>) returns (r: Result<seq<BucketView>, Exception>)
    ensures r == SortedViews(keys, series)
  {
    var buckets := [];
    var i := 0;
    while i < |keys|
      invariant 0 <= i <= |keys|
      invariant MapOk(Points(keys[..i], series), BucketViewOf) == Ok(buckets)
    {
      ghost var done := Points(keys[..i], series);
      PointsStep(keys, series, i);
      var key := keys[i];
      if key in series {
        var next := AppendViews(done, series[key], buckets);
        if next.Err? {
          PointsSplit(keys, series, i);
          MapOkErrSticks(Points(keys[..i + 1], series), Points(keys[i + 1..], series), BucketViewOf);
          return Err(next.error);
        }
        buckets := next.value;
      } else {
        assert done + [] == done;
      }
      i := i + 1;
    }
    assert keys[..i] == keys;
    r := Ok(Sort(buckets, ByStart));
  }

  /** On success the buckets are one per sample, in ascending start order, samples with equal starts in dict order. */
  lemma BucketsSpec(keys: seq<string>, series: map<string, seq<XdpEntry>>, k: BucketView)
    requires forall i :: 0 <= i < |Points(keys, series)| ==> BucketViewOf(Points(keys, series)[i]).Ok?
    ensures SortedViews(keys, series).Ok?
    ensures var r := SortedViews(keys, series).value;
      && |r| == |Points(keys, series)|
      && Sorted(r, ByStart)
      && multiset(r) == multiset(MapOk(Points(keys, series), BucketViewOf).value)
      && TiedWith(r, k, ByStart) == TiedWith(MapOk(Points(keys, series), BucketViewOf).value, k, ByStart)
  {
    MapOkSucceeds(Points(keys, series), BucketViewOf);
    ByStartOrder();
    SortSorted(MapOk(Points(keys, series), BucketViewOf).value, ByStart);
    SortPermutes(MapOk(Points(keys, series), BucketViewOf).value, ByStart);
    SortStable(MapOk(Points(keys, series), BucketViewOf).value, k, ByStart);
  }
}

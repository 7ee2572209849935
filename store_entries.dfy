/**
 * The payload side of backend/store.py: timestamp coercion, series keys and
 * the entries that `add_xdp_payload` and `add_integrity_payload` store.
 */
module StoreEntries {
  import opened Wrappers
  import opened Text
  import opened Numbers
  import opened PyValue

  /** 10**12: a timestamp this large (13 digits or more) is read as milliseconds. */
  const MillisThreshold: real := 1_000_000_000_000.0

  /** A millisecond count in seconds. */
  function MillisToSeconds(ms: real): real {
    ms / 1000.0
  }

  /** `_coerce_timestamp`: a positive number of seconds, or `None`. */
  function CoerceTimestamp(v: Value): (r: Option<real>)
    ensures r.None? <==> AsFloat(v, -1.0) <= 0.0
    ensures r.Some? ==> r.value > 0.0
    ensures r.Some? && AsFloat(v, -1.0) < MillisThreshold ==> r.value == AsFloat(v, -1.0)
    ensures r.Some? && AsFloat(v, -1.0) >= MillisThreshold ==> r.value == MillisToSeconds(AsFloat(v, -1.0))
  {
    var ts := AsFloat(v, -1.0);
    if ts <= 0.0 then None
    else if ts >= MillisThreshold then Some(MillisToSeconds(ts))
    else Some(ts)
  }

  /** Values that are not numbers (None, lists, dicts, non-numeric text) have no timestamp. */
  lemma CoerceTimestampNonNumeric(v: Value)
    requires v.PyNone? || v.PyList? || v.PyDict? || (v.PyStr? && ParseFloat(v.s).None?)
    ensures CoerceTimestamp(v).None?
  {
  }

  /** A millisecond count given as decimal text (such as `str(n)` of an integer `n`) becomes seconds. */
  lemma CoerceTimestampMillisText(s: string, ms: real)
    requires ParseFloat(s) == Some(ms) && ms >= MillisThreshold
    ensures CoerceTimestamp(PyStr(s)) == Some(MillisToSeconds(ms))
  {
    AsFloatOfText(s, -1.0);
  }

  /** A seconds value that coercion produced below the millisecond range is a fixed point of coercion. */
  lemma CoerceTimestampSeconds(v: Value)
    requires CoerceTimestamp(v).Some? && CoerceTimestamp(v).value < MillisThreshold
    ensures CoerceTimestamp(PyFloat(CoerceTimestamp(v).value)) == CoerceTimestamp(v)
  {
  }

  /** 0001-01-01T00:00:00 UTC in seconds since the epoch: the earliest time `datetime` holds. */
  const IsoMin: real := -62135596800.0

  /** 10000-01-01T00:00:00 UTC in seconds since the epoch: one past the latest time `datetime` holds. */
  const IsoMax: real := 253402300800.0

  /** Whether `_isoformat(ts)` returns: `datetime.fromtimestamp` only builds years 1 to 9999. */
  predicate IsoRepresentable(ts: real) {
    IsoMin <= ts < IsoMax
  }

  /** `a or b or ... or default` over optional timestamps: the first present one. */
  function FirstTimestamp(candidates: seq<Option<real>>, default: real): (r: real)
    ensures (forall k :: 0 <= k < |candidates| ==> candidates[k].None?) ==> r == default
    ensures forall k :: (0 <= k < |candidates| && candidates[k].Some? &&
      (forall j :: 0 <= j < k ==> candidates[j].None?)) ==> r == candidates[k].value
  {
    if candidates == [] then default
    else if candidates[0].Some? then candidates[0].value
    else FirstTimestamp(candidates[1..], default)
  }

  // ---------------------------------------------------------------------------
  // XDP samples

  /** One stored bandwidth sample. The Mbps/MBps conversions are not kept. */
  datatype XdpEntry = XdpEntry(
    hostname: string,
    interface: string,
    timestamp: real,
    timestampIso: Option<string>,  // None: rendered from `timestamp`
    avgBps: real,
    maxBps: real,
    bytesTotal: int,
    packetsTotal: int,
    mode: Value,
    window: Value,
    samples: int,
    source: Option<string>)

  /** The series key of a bandwidth payload. */
  function XdpKey(payload: map<string, Value>): string {
    TextOf(Get(payload, "hostname")) + "|" + TextOf(Get(payload, "interface"))
  }

  /** Host and interface come back out of the key when the host name holds no `|`. */
  lemma XdpKeySplits(payload: map<string, Value>)
    requires '|' !in TextOf(Get(payload, "hostname"))
    requires '|' !in TextOf(Get(payload, "interface"))
    ensures Split(XdpKey(payload), '|') == [TextOf(Get(payload, "hostname")), TextOf(Get(payload, "interface"))]
  {
    var h, i := TextOf(Get(payload, "hostname")), TextOf(Get(payload, "interface"));
    var k := XdpKey(payload);
    assert k[..|h|] == h;
    assert k[|h|] == '|';
    assert '|' in k;
    forall j | 0 <= j < |h| ensures k[j] != '|' { assert k[j] == h[j]; }
    var idx := IndexOf(k, '|');
    assert idx == |h|;
    assert k[idx + 1..] == i;
  }

  /** `payload.get("metrics") or {}`, which must then be a dict for `.get` to work. */
  function Metrics(payload: map<string, Value>): (r: Result<map<string, Value>, Exception>)
    ensures r.Err? <==> Truthy(Get(payload, "metrics")) && !Get(payload, "metrics").PyDict?
    ensures r.Ok? && Truthy(Get(payload, "metrics")) ==> r.value == Get(payload, "metrics").fields
    ensures r.Ok? && !Truthy(Get(payload, "metrics")) ==> r.value == map[]
  {
    var v := Get(payload, "metrics");
    if !Truthy(v) then Ok(map[])
    else if v.PyDict? then Ok(v.fields)
    else Err(AttributeError)
  }

  /** The aliases of the average rate, in the order they are tried. */
  const AvgAliases: seq<string> := ["bps_avg", "avg_bps", "avg", "bps_mean"]

  /** The aliases of the maximum rate, in the order they are tried. */
  const MaxAliases: seq<string> := ["bps_max", "max_bps", "max"]

  /** The value under each alias, in order. */
  function Lookups(m: map<string, Value>, aliases: seq<string>): (vs: seq<Value>)
    ensures |vs| == |aliases|
    ensures forall k :: 0 <= k < |aliases| ==> vs[k] == Get(m, aliases[k])
  {
    if aliases == [] then [] else [Get(m, aliases[0])] + Lookups(m, aliases[1..])
  }

  /** `_as_float(m.get(a1) or m.get(a2) or ...)`. */
  function AliasRate(m: map<string, Value>, aliases: seq<string>): real
    requires |aliases| >= 1
  {
    AsFloat(FirstTruthy(Lookups(m, aliases)), 0.0)
  }

  /** The first alias with a truthy value decides the rate. */
  lemma AliasRateFirstTruthy(m: map<string, Value>, aliases: seq<string>, k: nat)
    requires k < |aliases|
    requires Truthy(Get(m, aliases[k]))
    requires forall j :: 0 <= j < k ==> !Truthy(Get(m, aliases[j]))
    ensures AliasRate(m, aliases) == AsFloat(Get(m, aliases[k]), 0.0)
  {
    FirstTruthyPicks(Lookups(m, aliases), k);
  }

  /** When no alias has a truthy value the rate is 0. */
  lemma AliasRateAllFalsy(m: map<string, Value>, aliases: seq<string>)
    requires |aliases| >= 1
    requires forall j :: 0 <= j < |aliases| ==> !Truthy(Get(m, aliases[j]))
    ensures AliasRate(m, aliases) == 0.0
  {
    var vs := Lookups(m, aliases);
    FirstTruthyFalsy(vs);
    FalsyFloatIsZero(FirstTruthy(vs));
  }

  lemma FalsyFloatIsZero(v: Value)
    requires !Truthy(v)
    ensures AsFloat(v, 0.0) == 0.0
  {
    if v.PyStr? {
      assert v.s == [];
      EmptyTextIsNotFloat();
    }
  }

  lemma EmptyTextIsNotFloat()
    ensures ParseFloat("").None?
  {
    assert LStrip("", Whitespace) == "";
    assert Strip("") == "";
  }

  /**
   * The entry `add_xdp_payload` stores, or what it raises: `_isoformat` fails
   * first, for a time `datetime` cannot hold when no `timestamp_iso` is given,
   * then `.get` on a truthy non-dict `metrics` raises AttributeError.
   */
  function XdpEntryOf(payload: map<string, Value>, source: Option<string>, now: real): (r: Result<XdpEntry, Exception>)
    ensures var isoFails := !Truthy(Get(payload, "timestamp_iso")) && !IsoRepresentable(AsFloat(Get(payload, "timestamp"), now));
      && (r.Err? <==> isoFails || Metrics(payload).Err?)
      && (r.Err? ==> r.error == if isoFails then TimestampOutOfRange else AttributeError)
    ensures r.Ok? ==> r.value.hostname + "|" + r.value.interface == XdpKey(payload)
    ensures r.Ok? ==> r.value.avgBps == AliasRate(Metrics(payload).value, AvgAliases)
    ensures r.Ok? ==> r.value.maxBps == AliasRate(Metrics(payload).value, MaxAliases)
    ensures r.Ok? ==> r.value.timestamp == AsFloat(Get(payload, "timestamp"), now)
  {
    var host := TextOf(Get(payload, "hostname"));
    var iface := TextOf(Get(payload, "interface"));
    var timestamp := AsFloat(Get(payload, "timestamp"), now);
    var isoRaw := Get(payload, "timestamp_iso");
    if !Truthy(isoRaw) && !IsoRepresentable(timestamp) then Err(TimestampOutOfRange)
    else match Metrics(payload)
    case Err(e) => Err(e)
    case Ok(metrics) =>
      Ok(XdpEntry(
        hostname := host,
        interface := iface,
        timestamp := timestamp,
        timestampIso := if Truthy(isoRaw) then Some(Render(isoRaw)) else None,
        avgBps := AliasRate(metrics, AvgAliases),
        maxBps := AliasRate(metrics, MaxAliases),
        bytesTotal := AsInt(Get(metrics, "bytes_total"), 0),
        packetsTotal := AsInt(Get(metrics, "packets_total"), 0),
        mode := Get(payload, "mode"),
        window := Get(payload, "window"),
        samples := AsInt(Get(payload, "samples"), 0),
        source := source))
  }

  // ---------------------------------------------------------------------------
  // Integrity events

  /** One element of a trade batch. */
  datatype BatchItem = BatchItem(symbol: string, status: string, detail: Value, minute: int, timestamp: real)

  /** One stored integrity event. */
  datatype IntegrityEntry = IntegrityEntry(
    exchange: string,
    symbol: string,
    timestamp: real,
    minute: int,
    status: string,
    detail: Value,
    eventType: string,
    isOk: bool,
    source: Option<string>,
    hostname: string,
    interface: string,
    tradeBatch: bool,
    batchItems: seq<BatchItem>,
    batchSize: int,
    batchFailures: int)

  /** `defaults.get(name) or ""` rendered with `str`, with `defaults or {}` for a missing dict. */
  function DefaultText(defaults: Option<map<string, Value>>, name: string): string {
    if defaults.Some? then TextOf(Get(defaults.value, name)) else ""
  }

  /** `source or "integrity"`. */
  function SourceOrSentinel(source: Option<string>): (s: string)
    ensures s != []
  {
    if source.Some? && source.value != [] then source.value else "integrity"
  }

  /** The series key of an integrity event, built from whichever identity parts are present. */
  function IntegrityKey(hostname: string, interface: string, exchange: string, symbol: string, source: Option<string>): (key: string)
    ensures key != []
  {
    var hostParts := (if hostname != [] then [hostname] else []) + (if interface != [] then [interface] else []);
    var parts := if hostParts != [] then hostParts
                 else (if exchange != [] then [exchange] else []) + (if symbol != [] then [symbol] else []);
    var joined := Join(parts, '|');
    if joined != [] then joined
    else if exchange != [] then exchange
    else if symbol != [] then symbol
    else SourceOrSentinel(source)
  }

  /**
   * The key names the host and interface when either is known, the exchange
   * and symbol only when neither is, and the source (or "integrity") when
   * nothing is; each part comes back out of the key when it holds no `|`.
   */
  lemma IntegrityKeyParts(hostname: string, interface: string, exchange: string, symbol: string, source: Option<string>)
    requires '|' !in hostname && '|' !in interface && '|' !in exchange && '|' !in symbol
    ensures var key := IntegrityKey(hostname, interface, exchange, symbol, source);
      && (hostname != [] || interface != [] ==>
            Split(key, '|') == (if hostname != [] then [hostname] else []) + (if interface != [] then [interface] else []))
      && (hostname == [] && interface == [] && (exchange != [] || symbol != []) ==>
            Split(key, '|') == (if exchange != [] then [exchange] else []) + (if symbol != [] then [symbol] else []))
      && (hostname == [] && interface == [] && exchange == [] && symbol == [] ==>
            key == SourceOrSentinel(source))
  {
    if hostname != [] && interface != [] {
      PairSplits(hostname, interface);
    } else if hostname == [] && interface == [] && exchange != [] && symbol != [] {
      PairSplits(exchange, symbol);
    }
  }

  lemma PairSplits(a: string, b: string)
    requires '|' !in a && '|' !in b
    ensures Join([a, b], '|') == a + "|" + b
    ensures Split(a + "|" + b, '|') == [a, b]
  {
    var k := a + "|" + b;
    assert Join([a, b][1..], '|') == b;
    assert k[|a|] == '|';
    forall j | 0 <= j < |a| ensures k[j] != '|' { assert k[j] == a[j]; }
    var idx := IndexOf(k, '|');
    assert idx == |a|;
    assert k[..idx] == a;
    assert k[idx + 1..] == b;
  }

  /** Whether an entry's status reads as "ok". */
  predicate StatusOk(status: string) {
    status == "ok"
  }

  /** Iterating over the value raises TypeError: a truthy number or `True`. */
  predicate NotIterable(v: Value) {
    Truthy(v) && (v.PyInt? || v.PyFloat? || v.PyBool?)
  }

  /** The values `trade_batch_items` iterates over, or the TypeError of iterating a number or `True`. */
  function BatchSource(v: Value): (r: Result<seq<Value>, Exception>)
    ensures r.Err? <==> NotIterable(v)
    ensures r.Err? ==> r.error == TypeError
    ensures r.Ok? ==> forall k :: 0 <= k < |r.value| && r.value[k].PyDict? ==> v.PyList? && r.value[k] in v.items
  {
    if !Truthy(v) then Ok([])
    else match v
      case PyList(items) => Ok(items)
      // a string iterates over its one-character strings, none of them a dict
      case PyStr(s) => Ok(Characters(s))
      // a dict iterates over its keys, which are strings: none of them is a dict
      case PyDict(_) => Ok([])
      case _ => Err(TypeError)
  }

  /** Iterating over a string: its one-character strings. */
  function Characters(s: string): (vs: seq<Value>)
    ensures |vs| == |s|
    ensures forall k :: 0 <= k < |s| ==> vs[k] == PyStr([s[k]])
  {
    if s == [] then [] else [PyStr([s[0]])] + Characters(s[1..])
  }

  /** The batch item made of one raw dict, timestamped like its parent when it has no timestamp of its own. */
  function BatchItemOf(raw: map<string, Value>, parentTs: real): (item: BatchItem)
    ensures CoerceTimestamp(Get(raw, "timestamp")).None? ==> item.timestamp == parentTs
    ensures item.status == Lower(TextOf(Get(raw, "status")))
  {
    var ts := CoerceTimestamp(Get(raw, "timestamp"));
    BatchItem(
      symbol := TextOf(Get(raw, "symbol")),
      status := Lower(TextOf(Get(raw, "status"))),
      detail := Get(raw, "detail"),
      minute := AsInt(Get(raw, "minute"), 0),
      timestamp := if ts.Some? then ts.value else parentTs)
  }

  /** The items of a trade batch: one per dict, in order; everything else is skipped. */
  function BatchItemsOf(raw: seq<Value>, parentTs: real): (items: seq<BatchItem>)
  {
    if raw == [] then []
    else
      var last := raw[|raw| - 1];
      BatchItemsOf(raw[..|raw| - 1], parentTs) + (if last.PyDict? then [BatchItemOf(last.fields, parentTs)] else [])
  }

  /** How many of the values are dicts. */
  function DictCount(raw: seq<Value>): nat {
    if raw == [] then 0 else DictCount(raw[..|raw| - 1]) + (if raw[|raw| - 1].PyDict? then 1 else 0)
  }

  /** `item` is what some dict of `raw` becomes. */
  ghost predicate BuiltFromDict(item: BatchItem, raw: seq<Value>, parentTs: real) {
    exists j :: 0 <= j < |raw| && raw[j].PyDict? && item == BatchItemOf(raw[j].fields, parentTs)
  }

  /** There is one item per dict, and each item is built from some dict of the input. */
  lemma {:induction false} BatchItemsFromDicts(raw: seq<Value>, parentTs: real)
    ensures |BatchItemsOf(raw, parentTs)| == DictCount(raw)
    ensures forall k :: 0 <= k < |BatchItemsOf(raw, parentTs)| ==> BuiltFromDict(BatchItemsOf(raw, parentTs)[k], raw, parentTs)
  {
    if raw != [] {
      var init := raw[..|raw| - 1];
      BatchItemsFromDicts(init, parentTs);
      var initItems := BatchItemsOf(init, parentTs);
      var items := BatchItemsOf(raw, parentTs);
      forall k | 0 <= k < |items|
        ensures BuiltFromDict(items[k], raw, parentTs)
      {
        if k < |initItems| {
          assert BuiltFromDict(initItems[k], init, parentTs);
          var j :| 0 <= j < |init| && init[j].PyDict? && initItems[k] == BatchItemOf(init[j].fields, parentTs);
          assert raw[j] == init[j];
          assert items[k] == initItems[k];
        } else {
          var j := |raw| - 1;
          assert raw[j].PyDict?;
          assert items[k] == BatchItemOf(raw[j].fields, parentTs);
        }
      }
    }
  }

  /** The items built from a prefix of the raw values are a prefix of the items built from all of them. */
  lemma {:induction false} BatchItemsPrefix(raw: seq<Value>, i: nat, parentTs: real)
    requires i <= |raw|
    ensures BatchItemsOf(raw[..i], parentTs) <= BatchItemsOf(raw, parentTs)
  {
    if i < |raw| {
      var init := raw[..|raw| - 1];
      BatchItemsPrefix(init, i, parentTs);
      assert init[..i] == raw[..i];
    } else {
      assert raw[..i] == raw;
    }
  }

  /** Whether `_isoformat` returns for the timestamp of every item. */
  predicate ItemsRepresentable(items: seq<BatchItem>) {
    forall k :: 0 <= k < |items| ==> IsoRepresentable(items[k].timestamp)
  }

  /**
   * The Python loop over `trade_batch_items`; the first item whose timestamp
   * `_isoformat` cannot render ends it with that error.
   */
  method CollectBatchItems(raw: seq<Value>, parentTs: real) returns (r: Result<seq<BatchItem>, Exception>)
    ensures ItemsRepresentable(BatchItemsOf(raw, parentTs)) ==> r == Ok(BatchItemsOf(raw, parentTs))
    ensures !ItemsRepresentable(BatchItemsOf(raw, parentTs)) ==> r == Err(TimestampOutOfRange)
  {
    var items := [];
    var i := 0;
    while i < |raw|
      invariant 0 <= i <= |raw|
      invariant items == BatchItemsOf(raw[..i], parentTs)
      invariant ItemsRepresentable(items)
    {
      assert raw[..i + 1][..i] == raw[..i];
      var rawItem := raw[i];
      if rawItem.PyDict? {
        var item := BatchItemOf(rawItem.fields, parentTs);
        if !IsoRepresentable(item.timestamp) {
          BatchItemsPrefix(raw, i + 1, parentTs);
          assert BatchItemsOf(raw[..i + 1], parentTs) == items + [item];
          assert BatchItemsOf(raw, parentTs)[|items|] == item;
          return Err(TimestampOutOfRange);
        }
        items := items + [item];
      }
      i := i + 1;
    }
    assert raw[..|raw|] == raw;
    r := Ok(items);
  }

  /** `sum(1 for item in batch_items if item.get("status") != "ok")`. */
  function CountNotOk(items: seq<BatchItem>): (n: nat)
    ensures n <= |items|
    ensures n == 0 <==> forall k :: 0 <= k < |items| ==> StatusOk(items[k].status)
  {
    if items == [] then 0
    else CountNotOk(items[..|items| - 1]) + (if StatusOk(items[|items| - 1].status) then 0 else 1)
  }

  /** The integrity fields that do not depend on a trade batch. */
  function IntegrityHeader(payload: map<string, Value>, source: Option<string>,
                           defaults: Option<map<string, Value>>, now: real): (r: (string, IntegrityEntry))
    ensures r.0 != []
    ensures r.1.isOk <==> r.1.status == "ok"
    ensures r.1.status == Lower(TextOf(Get(payload, "status")))
    ensures r.1.timestamp == IntegrityTimestamp(payload, now)
    ensures !r.1.tradeBatch && r.1.batchItems == [] && r.1.batchSize == 0 && r.1.batchFailures == 0
    ensures r.0 == IntegrityKey(r.1.hostname, r.1.interface, r.1.exchange, r.1.symbol, source)
  {
    var exchange := TextOf(Get(payload, "exchange"));
    var symbol := TextOf(Get(payload, "symbol"));
    var hostname := DefaultText(defaults, "hostname");
    var interface := DefaultText(defaults, "interface");
    var key := IntegrityKey(hostname, interface, exchange, symbol, source);
    var timestamp := IntegrityTimestamp(payload, now);
    var status := Lower(TextOf(Get(payload, "status")));
    (key, IntegrityEntry(
      exchange := exchange,
      symbol := symbol,
      timestamp := timestamp,
      minute := AsInt(Get(payload, "minute"), 0),
      status := status,
      detail := Get(payload, "detail"),
      eventType := TextOf(Get(payload, "type")),
      isOk := StatusOk(status),
      source := source,
      hostname := hostname,
      interface := interface,
      tradeBatch := false,
      batchItems := [],
      batchSize := 0,
      batchFailures := 0))
  }

  /** The timestamp fields in order of precedence. */
  function TimestampCandidates(payload: map<string, Value>): seq<Option<real>> {
    [CoerceTimestamp(Get(payload, "timestamp_ms")),
     CoerceTimestamp(Get(payload, "period_end_ts")),
     CoerceTimestamp(Get(payload, "tp")),
     CoerceTimestamp(Get(payload, "timestamp"))]
  }

  /** The event time: the first field that coerces to a timestamp, else the clock. */
  function IntegrityTimestamp(payload: map<string, Value>, now: real): real {
    FirstTimestamp(TimestampCandidates(payload), now)
  }

  /** The first of four optional timestamps that is present, else the default. */
  lemma FirstOfFour(a: Option<real>, b: Option<real>, c: Option<real>, d: Option<real>, default: real)
    ensures var ts := FirstTimestamp([a, b, c, d], default);
      && (a.Some? ==> ts == a.value)
      && (a.None? && b.Some? ==> ts == b.value)
      && (a.None? && b.None? && c.Some? ==> ts == c.value)
      && (a.None? && b.None? && c.None? && d.Some? ==> ts == d.value)
      && (a.None? && b.None? && c.None? && d.None? ==> ts == default)
  {
    var cs := [a, b, c, d];
    assert cs[0] == a && cs[1] == b && cs[2] == c && cs[3] == d;
  }

  /** The event's timestamp follows the precedence timestamp_ms, period_end_ts, tp, timestamp, then the clock. */
  lemma IntegrityTimestampPrecedence(payload: map<string, Value>, now: real)
    ensures var ts := IntegrityTimestamp(payload, now);
      var ms, pe := CoerceTimestamp(Get(payload, "timestamp_ms")), CoerceTimestamp(Get(payload, "period_end_ts"));
      var tp, t := CoerceTimestamp(Get(payload, "tp")), CoerceTimestamp(Get(payload, "timestamp"));
      && (ms.Some? ==> ts == ms.value)
      && (ms.None? && pe.Some? ==> ts == pe.value)
      && (ms.None? && pe.None? && tp.Some? ==> ts == tp.value)
      && (ms.None? && pe.None? && tp.None? && t.Some? ==> ts == t.value)
      && (ms.None? && pe.None? && tp.None? && t.None? ==> ts == now)
  {
    FirstOfFour(CoerceTimestamp(Get(payload, "timestamp_ms")), CoerceTimestamp(Get(payload, "period_end_ts")),
                CoerceTimestamp(Get(payload, "tp")), CoerceTimestamp(Get(payload, "timestamp")), now);
  }

  /** The header completed with the trade-batch fields. */
  function WithBatch(entry: IntegrityEntry, payload: map<string, Value>, items: seq<BatchItem>): (e: IntegrityEntry)
    ensures e.tradeBatch && e.batchItems == items
    ensures e.batchSize == AsInt(Get(payload, "trade_batch_size"), |items|)
    ensures e.batchFailures == AsInt(Get(payload, "trade_batch_failures"), CountNotOk(items))
    ensures e.(tradeBatch := false, batchItems := [], batchSize := 0, batchFailures := 0)
         == entry.(tradeBatch := false, batchItems := [], batchSize := 0, batchFailures := 0)
  {
    entry.(
      tradeBatch := true,
      batchItems := items,
      batchSize := AsInt(Get(payload, "trade_batch_size"), |items|),
      batchFailures := AsInt(Get(payload, "trade_batch_failures"), CountNotOk(items)))
  }

  /** Whether the payload is a trade batch. */
  predicate IsBatch(payload: map<string, Value>) {
    Truthy(Get(payload, "trade_batch"))
  }

  /**
   * What `add_integrity_payload` stores, and under which key, or what it
   * raises: `_isoformat` of the event time, then the TypeError of a
   * non-iterable batch, then `_isoformat` of an item's time.
   */
  function IntegrityEntryOf(payload: map<string, Value>, source: Option<string>,
                            defaults: Option<map<string, Value>>, now: real): (r: Result<(string, IntegrityEntry), Exception>)
  {
    var (key, header) := IntegrityHeader(payload, source, defaults, now);
    if !IsoRepresentable(header.timestamp) then Err(TimestampOutOfRange)
    else if !IsBatch(payload) then Ok((key, header))
    else match BatchSource(Get(payload, "trade_batch_items"))
      case Err(e) => Err(e)
      case Ok(raw) =>
        var items := BatchItemsOf(raw, header.timestamp);
        if !ItemsRepresentable(items) then Err(TimestampOutOfRange)
        else Ok((key, WithBatch(header, payload, items)))
  }

  /** The entry-building part of `add_integrity_payload`, with its loop over the batch items. */
  method BuildIntegrityEntry(payload: map<string, Value>, source: Option<string>,
                             defaults: Option<map<string, Value>>, now: real)
    returns (r: Result<(string, IntegrityEntry), Exception>)
    ensures r == IntegrityEntryOf(payload, source, defaults, now)
  {
    var (key, header) := IntegrityHeader(payload, source, defaults, now);
    if !IsoRepresentable(header.timestamp) {
      return Err(TimestampOutOfRange);
    }
    if !IsBatch(payload) {
      return Ok((key, header));
    }
    var raw := BatchSource(Get(payload, "trade_batch_items"));
    if raw.Err? {
      return Err(raw.error);
    }
    var items := CollectBatchItems(raw.value, header.timestamp);
    if items.Err? {
      return Err(items.error);
    }
    r := Ok((key, WithBatch(header, payload, items.value)));
  }

  /**
   * The event fails when `datetime` cannot hold its time, or, for a batch,
   * when the items value is a truthy number or `True`, or when it cannot hold
   * some item's time; otherwise a non-batch event has an empty batch, a batch
   * event as many items as its source has dicts, the key is never empty and
   * `isOk` is exactly "the lowercased status is ok".
   */
  lemma IntegrityEntryShape(payload: map<string, Value>, source: Option<string>,
                            defaults: Option<map<string, Value>>, now: real)
    ensures var r := IntegrityEntryOf(payload, source, defaults, now);
      var itemsValue := Get(payload, "trade_batch_items");
      var ts := IntegrityTimestamp(payload, now);
      && (r.Err? <==> (!IsoRepresentable(ts) || (IsBatch(payload) &&
            (NotIterable(itemsValue) || !ItemsRepresentable(BatchItemsOf(BatchSource(itemsValue).value, ts))))))
      && (r.Err? ==> r.error == if IsoRepresentable(ts) && IsBatch(payload) && NotIterable(itemsValue) then TypeError else TimestampOutOfRange)
      && (r.Ok? ==> r.value.0 != [] && (r.value.1.isOk <==> Lower(TextOf(Get(payload, "status"))) == "ok"))
      && (r.Ok? && !IsBatch(payload) ==>
            !r.value.1.tradeBatch && r.value.1.batchItems == [] && r.value.1.batchSize == 0 && r.value.1.batchFailures == 0)
      && (r.Ok? && IsBatch(payload) ==>
            r.value.1.tradeBatch && |r.value.1.batchItems| == DictCount(BatchSource(itemsValue).value))
  {
    var r := IntegrityEntryOf(payload, source, defaults, now);
    var (key, header) := IntegrityHeader(payload, source, defaults, now);
    if IsBatch(payload) && r.Ok? {
      var raw := BatchSource(Get(payload, "trade_batch_items")).value;
      BatchItemsFromDicts(raw, header.timestamp);
    }
  }

  /**
   * A bandwidth payload carrying a millisecond time under "timestamp" and no
   * "timestamp_iso" is not coerced to seconds: `_isoformat` raises on it.
   */
  lemma XdpMillisTimestampFails(metrics: map<string, Value>)
    ensures XdpEntryOf(map["timestamp" := PyFloat(1_700_000_000_000.0), "metrics" := PyDict(metrics)], None, 0.0)
         == Err(TimestampOutOfRange)
  {
  }

  /**
   * A time in seconds past the year 9999 but below the millisecond range is
   * kept as seconds by `_coerce_timestamp`, and `_isoformat` raises on it.
   */
  lemma IntegrityFarFutureFails(seconds: real, source: Option<string>, defaults: Option<map<string, Value>>, now: real)
    requires IsoMax <= seconds < MillisThreshold
    ensures IntegrityEntryOf(map["timestamp_ms" := PyFloat(seconds)], source, defaults, now) == Err(TimestampOutOfRange)
  {
    var payload := map["timestamp_ms" := PyFloat(seconds)];
    IntegrityTimestampPrecedence(payload, now);
  }
}

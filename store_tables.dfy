/**
 * The containers behind MetricStore in backend/store.py: a dict of series
 * keyed by string, in insertion order, each series a deque that is pruned
 * from its oldest end once its entries fall behind the retention cutoff.
 * A table is the key order (`keys`) together with the dict (`series`).
 */
module StoreTables {

  /** `_prune_deque` as a value: the series without its leading entries older than `cutoff`. */
  function Pruned<T>(s: seq<T>, ts: T -> real, cutoff: real): (r: seq<T>)
    ensures |r| <= |s| && r == s[|s| - |r|..]
    ensures r == [] || ts(r[0]) >= cutoff
    ensures forall k :: 0 <= k < |s| - |r| ==> ts(s[k]) < cutoff
  {
    if s != [] && ts(s[0]) < cutoff then Pruned(s[1..], ts, cutoff) else s
  }

  /** Pruning at one cutoff and then another is pruning once at the later of the two. */
  lemma {:induction false} PrunedTwice<T>(s: seq<T>, ts: T -> real, c1: real, c2: real)
    ensures Pruned(Pruned(s, ts, c1), ts, c2) == Pruned(s, ts, if c1 >= c2 then c1 else c2)
  {
    if s != [] && ts(s[0]) < c1 {
      PrunedTwice(s[1..], ts, c1, c2);
    } else if s != [] && ts(s[0]) < c2 {
      PrunedTwice(s[1..], ts, c1, c2);
    }
  }

  /** Pruning is idempotent. */
  lemma PrunedIdempotent<T>(s: seq<T>, ts: T -> real, cutoff: real)
    ensures Pruned(Pruned(s, ts, cutoff), ts, cutoff) == Pruned(s, ts, cutoff)
  {
    PrunedTwice(s, ts, cutoff, cutoff);
  }

  /** An entry appended at or after the cutoff survives the pruning, as the newest entry. */
  lemma PrunedKeepsNewest<T>(s: seq<T>, e: T, ts: T -> real, cutoff: real)
    requires ts(e) >= cutoff
    ensures var r := Pruned(s + [e], ts, cutoff); r != [] && r[|r| - 1] == e
  {
    assert (s + [e])[|s|] == e;
  }

  /** The deque loop of `_prune_deque`. */
  method PruneDeque<T>(s: seq<T>, ts: T -> real, cutoff: real) returns (r: seq<T>)
    ensures r == Pruned(s, ts, cutoff)
  {
    r := s;
    while r != [] && ts(r[0]) < cutoff
      invariant Pruned(r, ts, cutoff) == Pruned(s, ts, cutoff)
      decreases |r|
    {
      r := r[1..];
    }
  }

  /** No key occurs twice. */
  predicate Distinct(keys: seq<string>) {
    forall i, j :: 0 <= i < j < |keys| ==> keys[i] != keys[j]
  }

  /** Distinct keys in insertion order, naming exactly the dict's keys, each with a non-empty series. */
  ghost predicate Table<T>(keys: seq<string>, series: map<string, seq<T>>) {
    && Distinct(keys)
    && (forall i :: 0 <= i < |keys| ==> keys[i] in series)
    && (forall k :: k in series ==> k in keys)
    && (forall k :: k in series ==> series[k] != [])
  }

  /** `series[key].append(e)` on a defaultdict of deques: a new key goes last. */
  function Append<T>(keys: seq<string>, series: map<string, seq<T>>, key: string, e: T): (r: (seq<string>, map<string, seq<T>>))
    ensures key in r.1 && r.1[key] != [] && r.1[key][|r.1[key]| - 1] == e
    ensures key in series ==> r.0 == keys && r.1[key] == series[key] + [e]
    ensures key !in series ==> r.0 == keys + [key] && r.1[key] == [e]
    ensures forall k :: k in series && k != key ==> k in r.1 && r.1[k] == series[k]
    ensures r.1.Keys == series.Keys + {key}
  {
    if key in series then (keys, series[key := series[key] + [e]])
    else (keys + [key], series[key := [e]])
  }

  /** Appending keeps a table a table. */
  lemma AppendTable<T>(keys: seq<string>, series: map<string, seq<T>>, key: string, e: T)
    requires Table(keys, series)
    ensures var (k2, s2) := Append(keys, series, key, e); Table(k2, s2)
  {
  }

  /** Whether `key` has a series with an entry at or after the cutoff. */
  predicate Survives<T>(series: map<string, seq<T>>, key: string, ts: T -> real, cutoff: real) {
    key in series && Pruned(series[key], ts, cutoff) != []
  }

  /** The keys whose series outlive the cutoff, in their original order. */
  function PruneKeys<T>(keys: seq<string>, series: map<string, seq<T>>, ts: T -> real, cutoff: real): (r: seq<string>)
    ensures |r| <= |keys|
  {
    if keys == [] then []
    else
      var last := keys[|keys| - 1];
      PruneKeys(keys[..|keys| - 1], series, ts, cutoff)
        + (if Survives(series, last, ts, cutoff) then [last] else [])
  }

  /** The dict after pruning: every series pruned, the emptied ones deleted. */
  function PruneSeries<T>(series: map<string, seq<T>>, ts: T -> real, cutoff: real): map<string, seq<T>> {
    map k | k in series && Pruned(series[k], ts, cutoff) != [] :: Pruned(series[k], ts, cutoff)
  }

  /** A key survives exactly when its pruned series is not empty. */
  lemma {:induction false} PruneKeysMembers<T>(keys: seq<string>, series: map<string, seq<T>>, ts: T -> real, cutoff: real)
    ensures forall k :: k in PruneKeys(keys, series, ts, cutoff) <==> k in keys && Survives(series, k, ts, cutoff)
  {
    if keys != [] {
      var init := keys[..|keys| - 1];
      assert forall k :: k in keys <==> k in init || k == keys[|keys| - 1];
      PruneKeysMembers(init, series, ts, cutoff);
    }
  }

  /** Pruning keeps the order of the surviving keys. */
  lemma {:induction false} PruneKeysConcat<T>(a: seq<string>, b: seq<string>, series: map<string, seq<T>>, ts: T -> real, cutoff: real)
    ensures PruneKeys(a + b, series, ts, cutoff) == PruneKeys(a, series, ts, cutoff) + PruneKeys(b, series, ts, cutoff)
  {
    if b == [] {
      assert a + b == a;
    } else {
      var init, last := b[..|b| - 1], b[|b| - 1];
      assert (a + b)[..|a + b| - 1] == a + init;
      assert (a + b)[|a + b| - 1] == last;
      PruneKeysConcat(a, init, series, ts, cutoff);
    }
  }

  /** Distinct keys stay distinct after pruning. */
  lemma {:induction false} PruneKeysDistinct<T>(keys: seq<string>, series: map<string, seq<T>>, ts: T -> real, cutoff: real)
    requires Distinct(keys)
    ensures Distinct(PruneKeys(keys, series, ts, cutoff))
  {
    if keys != [] {
      var init, last := keys[..|keys| - 1], keys[|keys| - 1];
      assert Distinct(init) by {
        forall i, j | 0 <= i < j < |init| ensures init[i] != init[j] {
          assert init[i] == keys[i] && init[j] == keys[j];
        }
      }
      PruneKeysDistinct(init, series, ts, cutoff);
      var p := PruneKeys(init, series, ts, cutoff);
      assert Distinct(p);
      assert last !in init;
      PruneKeysMembers(init, series, ts, cutoff);
      assert last !in p;
      var r := PruneKeys(keys, series, ts, cutoff);
      if Survives(series, last, ts, cutoff) {
        assert r == p + [last];
        forall i, j | 0 <= i < j < |r| ensures r[i] != r[j] {
          assert r[i] == p[i];
          if j == |p| {
            assert p[i] in p;
            assert r[j] == last;
          } else {
            assert r[j] == p[j];
            assert p[i] != p[j];
          }
        }
      } else {
        assert r == p;
      }
    }
  }

  /** Pruning a table gives a table. */
  lemma PruneTableValid<T>(keys: seq<string>, series: map<string, seq<T>>, ts: T -> real, cutoff: real)
    requires Table(keys, series)
    ensures Table(PruneKeys(keys, series, ts, cutoff), PruneSeries(series, ts, cutoff))
  {
    PruneKeysDistinct(keys, series, ts, cutoff);
    PruneKeysMembers(keys, series, ts, cutoff);
    var r := PruneKeys(keys, series, ts, cutoff);
    forall i | 0 <= i < |r| ensures r[i] in PruneSeries(series, ts, cutoff) {
      assert r[i] in r;
    }
  }

  /** A key survives a second pruning exactly when it survives one pruning at the later cutoff. */
  lemma SurvivesTwice<T>(series: map<string, seq<T>>, key: string, ts: T -> real, c1: real, c2: real)
    ensures Survives(PruneSeries(series, ts, c1), key, ts, c2) <==> Survives(series, key, ts, if c1 >= c2 then c1 else c2)
  {
    if key in series {
      PrunedTwice(series[key], ts, c1, c2);
    }
  }

  /** One key of the dict pruned twice, against the dict pruned once at the later cutoff. */
  lemma PruneSeriesTwiceAt<T>(series: map<string, seq<T>>, k: string, ts: T -> real, c1: real, c2: real)
    ensures var twice, once := PruneSeries(PruneSeries(series, ts, c1), ts, c2), PruneSeries(series, ts, if c1 >= c2 then c1 else c2);
      && (k in twice <==> k in once)
      && (k in once ==> twice[k] == once[k])
  {
    if k in series {
      PrunedTwice(series[k], ts, c1, c2);
    }
  }

  /** Pruning the dict twice is pruning it once at the later cutoff. */
  lemma PruneSeriesTwice<T>(series: map<string, seq<T>>, ts: T -> real, c1: real, c2: real)
    ensures PruneSeries(PruneSeries(series, ts, c1), ts, c2) == PruneSeries(series, ts, if c1 >= c2 then c1 else c2)
  {
    var twice := PruneSeries(PruneSeries(series, ts, c1), ts, c2);
    var once := PruneSeries(series, ts, if c1 >= c2 then c1 else c2);
    forall k ensures (k in twice <==> k in once) && (k in once ==> twice[k] == once[k]) {
      PruneSeriesTwiceAt(series, k, ts, c1, c2);
    }
    assert twice.Keys == once.Keys;
  }

  /** Pruning the key order twice is pruning it once at the later cutoff. */
  lemma {:induction false} PruneKeysTwice<T>(keys: seq<string>, series: map<string, seq<T>>, ts: T -> real, c1: real, c2: real)
    ensures PruneKeys(PruneKeys(keys, series, ts, c1), PruneSeries(series, ts, c1), ts, c2)
         == PruneKeys(keys, series, ts, if c1 >= c2 then c1 else c2)
  {
    if keys != [] {
      var init, last := keys[..|keys| - 1], keys[|keys| - 1];
      var once: seq<string> := if Survives(series, last, ts, c1) then [last] else [];
      var pruned := PruneSeries(series, ts, c1);
      PruneKeysTwice(init, series, ts, c1, c2);
      PruneKeysConcat(PruneKeys(init, series, ts, c1), once, pruned, ts, c2);
      SurvivesTwice(series, last, ts, c1, c2);
      if once != [] {
        assert once[..0] == [];
        assert PruneKeys(once, pruned, ts, c2) == if Survives(pruned, last, ts, c2) then [last] else [];
      }
    }
  }

  /** One step of the pruning loop on the dict: prune the key's series, and delete it once emptied. */
  function PruneStep<T>(m: map<string, seq<T>>, key: string, ts: T -> real, cutoff: real): map<string, seq<T>> {
    if key !in m then m
    else if Pruned(m[key], ts, cutoff) == [] then m - {key}
    else m[key := Pruned(m[key], ts, cutoff)]
  }

  /** The dict once the keys in `done` have been visited, in order. */
  function PartlyPruned<T>(series: map<string, seq<T>>, done: seq<string>, ts: T -> real, cutoff: real): map<string, seq<T>> {
    if done == [] then series
    else PruneStep(PartlyPruned(series, done[..|done| - 1], ts, cutoff), done[|done| - 1], ts, cutoff)
  }

  /** Part-way through, a visited key is pruned (and gone when emptied) and an unvisited one untouched. */
  lemma {:induction false} PartlyPrunedAt<T>(series: map<string, seq<T>>, done: seq<string>, k: string, ts: T -> real, cutoff: real)
    ensures k in PartlyPruned(series, done, ts, cutoff) <==> k in series && (k !in done || Pruned(series[k], ts, cutoff) != [])
    ensures k in PartlyPruned(series, done, ts, cutoff) ==>
      PartlyPruned(series, done, ts, cutoff)[k] == if k in done then Pruned(series[k], ts, cutoff) else series[k]
  {
    if done != [] {
      var init, key := done[..|done| - 1], done[|done| - 1];
      PartlyPrunedAt(series, init, k, ts, cutoff);
      assert done == init + [key];
      assert k in done <==> k in init || k == key;
      if k == key && k in init && k in series {
        PrunedIdempotent(series[k], ts, cutoff);
      }
    }
  }

  /** Visiting every key gives the pruned dict. */
  lemma PartlyPrunedAll<T>(series: map<string, seq<T>>, keys: seq<string>, ts: T -> real, cutoff: real)
    requires forall k :: k in series <==> k in keys
    ensures PartlyPruned(series, keys, ts, cutoff) == PruneSeries(series, ts, cutoff)
  {
    var m, r := PartlyPruned(series, keys, ts, cutoff), PruneSeries(series, ts, cutoff);
    forall k ensures (k in m <==> k in r) && (k in m ==> m[k] == r[k]) {
      PartlyPrunedAt(series, keys, k, ts, cutoff);
    }
  }

  /** One more visited key is kept exactly when it survives. */
  lemma PruneKeysSnoc<T>(keys: seq<string>, series: map<string, seq<T>>, i: nat, ts: T -> real, cutoff: real)
    requires i < |keys|
    ensures PruneKeys(keys[..i + 1], series, ts, cutoff)
         == PruneKeys(keys[..i], series, ts, cutoff) + (if Survives(series, keys[i], ts, cutoff) then [keys[i]] else [])
  {
    assert keys[..i + 1][..i] == keys[..i];
    assert keys[..i + 1][i] == keys[i];
  }

  /** The key order part-way through the loop, once the first key still to visit is handled. */
  lemma PruneKeysStep<T>(keys: seq<string>, series: map<string, seq<T>>, i: nat, ts: T -> real, cutoff: real)
    requires i < |keys|
    ensures var p, key := PruneKeys(keys[..i], series, ts, cutoff), keys[i];
      var cur := p + keys[i..];
      && |p| < |cur| && cur[|p|] == key
      && (!Survives(series, key, ts, cutoff) ==>
            PruneKeys(keys[..i + 1], series, ts, cutoff) + keys[i + 1..] == cur[..|p|] + cur[|p| + 1..])
      && (Survives(series, key, ts, cutoff) ==>
            PruneKeys(keys[..i + 1], series, ts, cutoff) + keys[i + 1..] == cur)
  {
    PruneKeysSnoc(keys, series, i, ts, cutoff);
    var p, key, rest := PruneKeys(keys[..i], series, ts, cutoff), keys[i], keys[i + 1..];
    assert keys[i..] == [key] + rest;
    var cur := p + keys[i..];
    assert cur == (p + [key]) + rest;
    assert cur[..|p|] == p;
    assert cur[|p| + 1..] == rest;
  }

  /** A key of a distinct sequence is not among the keys before it. */
  lemma DistinctNotBefore(keys: seq<string>, i: nat)
    requires Distinct(keys) && i < |keys|
    ensures keys[i] !in keys[..i]
    ensures keys[..i + 1] == keys[..i] + [keys[i]]
  {
    assert keys[..i + 1] == keys[..i] + [keys[i]];
  }

  /** The state of the pruning loop after visiting the first `i` keys. */
  ghost predicate PruneLoop<T>(keys: seq<string>, series: map<string, seq<T>>, ts: T -> real, cutoff: real,
                               i: nat, kept: nat, newKeys: seq<string>, newSeries: map<string, seq<T>>) {
    && i <= |keys|
    && kept == |PruneKeys(keys[..i], series, ts, cutoff)|
    && newKeys == PruneKeys(keys[..i], series, ts, cutoff) + keys[i..]
    && newSeries == PartlyPruned(series, keys[..i], ts, cutoff)
  }

  /** Before visiting `keys[i]`, the key is still in the dict, at position `kept` of the key order. */
  lemma PruneLoopNext<T>(keys: seq<string>, series: map<string, seq<T>>, ts: T -> real, cutoff: real,
                         i: nat, kept: nat, newKeys: seq<string>, newSeries: map<string, seq<T>>)
    requires Table(keys, series) && i < |keys|
    requires PruneLoop(keys, series, ts, cutoff, i, kept, newKeys, newSeries)
    ensures keys[i] in newSeries && kept < |newKeys|
    ensures newSeries[keys[i]] == series[keys[i]]
    ensures Pruned(newSeries[keys[i]], ts, cutoff) != [] <==> Survives(series, keys[i], ts, cutoff)
  {
    DistinctNotBefore(keys, i);
    PartlyPrunedAt(series, keys[..i], keys[i], ts, cutoff);
  }

  /** Visiting `keys[i]` moves the loop state on by one key. */
  lemma PruneLoopStep<T>(keys: seq<string>, series: map<string, seq<T>>, ts: T -> real, cutoff: real,
                         i: nat, kept: nat, newKeys: seq<string>, newSeries: map<string, seq<T>>,
                         survived: bool, nextKeys: seq<string>, nextSeries: map<string, seq<T>>)
    requires Table(keys, series) && i < |keys|
    requires PruneLoop(keys, series, ts, cutoff, i, kept, newKeys, newSeries)
    requires keys[i] in newSeries && kept < |newKeys|
    requires survived <==> Pruned(newSeries[keys[i]], ts, cutoff) != []
    requires nextSeries == PruneStep(newSeries, keys[i], ts, cutoff)
    requires nextKeys == if survived then newKeys else newKeys[..kept] + newKeys[kept + 1..]
    ensures PruneLoop(keys, series, ts, cutoff, i + 1, if survived then kept + 1 else kept, nextKeys, nextSeries)
  {
    var key := keys[i];
    DistinctNotBefore(keys, i);
    PartlyPrunedAt(series, keys[..i], key, ts, cutoff);
    assert keys[..i + 1][..i] == keys[..i];
    PruneKeysStep(keys, series, i, ts, cutoff);
  }

  /** Once every key is visited the loop state is the pruned table. */
  lemma PruneLoopDone<T>(keys: seq<string>, series: map<string, seq<T>>, ts: T -> real, cutoff: real,
                         i: nat, kept: nat, newKeys: seq<string>, newSeries: map<string, seq<T>>)
    requires Table(keys, series) && i >= |keys|
    requires PruneLoop(keys, series, ts, cutoff, i, kept, newKeys, newSeries)
    ensures newKeys == PruneKeys(keys, series, ts, cutoff)
    ensures newSeries == PruneSeries(series, ts, cutoff)
  {
    assert keys[..i] == keys;
    assert newKeys == PruneKeys(keys, series, ts, cutoff) + [];
    PartlyPrunedAll(series, keys, ts, cutoff);
  }

  /** One key of the pruning loop: prune its deque and, once emptied, delete it from the dict and the key order. */
  method PruneKey<T>(keys: seq<string>, series: map<string, seq<T>>, key: string, pos: nat, ts: T -> real, cutoff: real)
    returns (newKeys: seq<string>, newSeries: map<string, seq<T>>, kept: bool)
    requires key in series && pos < |keys|
    ensures kept <==> Pruned(series[key], ts, cutoff) != []
    ensures newSeries == PruneStep(series, key, ts, cutoff)
    ensures newKeys == if kept then keys else keys[..pos] + keys[pos + 1..]
  {
    var s := PruneDeque(series[key], ts, cutoff);
    kept := s != [];
    if kept {
      newKeys, newSeries := keys, series[key := s];
    } else {
      newKeys, newSeries := keys[..pos] + keys[pos + 1..], series - {key};
    }
  }

  /** The per-dict loop of `_prune_locked`: iterate over a copy of the keys, prune each series, delete emptied ones. */
  method PruneTable<T>(keys: seq<string>, series: map<string, seq<T>>, ts: T -> real, cutoff: real)
    returns (newKeys: seq<string>, newSeries: map<string, seq<T>>)
    requires Table(keys, series)
    ensures newKeys == PruneKeys(keys, series, ts, cutoff) && newSeries == PruneSeries(series, ts, cutoff)
  {
    newKeys, newSeries := keys, series;
    var kept := 0;
    var i := 0;
    while i < |keys|
      invariant PruneLoop(keys, series, ts, cutoff, i, kept, newKeys, newSeries)
      decreases |keys| - i
    {
      PruneLoopNext(keys, series, ts, cutoff, i, kept, newKeys, newSeries);
      var nextKeys, nextSeries, survived := PruneKey(newKeys, newSeries, keys[i], kept, ts, cutoff);
      PruneLoopStep(keys, series, ts, cutoff, i, kept, newKeys, newSeries, survived, nextKeys, nextSeries);
      newKeys, newSeries := nextKeys, nextSeries;
      kept := if survived then kept + 1 else kept;
      i := i + 1;
    }
    PruneLoopDone(keys, series, ts, cutoff, i, kept, newKeys, newSeries);
  }
}

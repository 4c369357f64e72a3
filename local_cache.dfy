/** `LocalCache` (webscale-cache/src/local-cache.ts): a bounded key to entry map with a
    debounced garbage collector. `Date.now()` is the parameter `now`; the `setInterval` tick
    that calls the collector every `gcMaxSweep` ms is a call of `GarbageCollect`. */
module LocalCaching {
  import opened Wrappers
  import opened OrderedMap

  /** `CacheEntry`: `timeout` is present only when `put` got a truthy `evictTimeout`. */
  datatype Entry<T> = Entry(value: T, time: int, timeout: Option<int>)

  /** `LocalCacheOptions` as passed to the constructor; `None` is an unset option. */
  datatype CacheOptions = CacheOptions(gcMaxSweep: Option<int>, gcMinSweep: Option<int>, limit: Option<int>, pressureRatio: Option<real>)

  /** The options after the constructor filled in the defaults. */
  datatype Settings = Settings(gcMaxSweep: int, gcMinSweep: int, limit: int, pressureRatio: real)

  /** True iff a numeric option is truthy: present and not 0. */
  predicate TruthyNumber(o: Option<int>)
  {
    o.Some? && o.value != 0
  }

  /** `options.x || d` for a number. */
  function OrInt(o: Option<int>, d: int): int
  {
    if TruthyNumber(o) then o.value else d
  }

  /** The constructor's defaults: an unset or zero option becomes 60000, 5000, 10000 or 0.9. */
  function WithDefaults(o: CacheOptions): (s: Settings)
    ensures s.gcMaxSweep == if TruthyNumber(o.gcMaxSweep) then o.gcMaxSweep.value else 60000
    ensures s.gcMinSweep == if TruthyNumber(o.gcMinSweep) then o.gcMinSweep.value else 5000
    ensures s.limit == if TruthyNumber(o.limit) then o.limit.value else 10000
    ensures s.pressureRatio == if o.pressureRatio.Some? && o.pressureRatio.value != 0.0 then o.pressureRatio.value else 0.9
  {
    Settings(OrInt(o.gcMaxSweep, 60000), OrInt(o.gcMinSweep, 5000), OrInt(o.limit, 10000),
      if o.pressureRatio.Some? && o.pressureRatio.value != 0.0 then o.pressureRatio.value else 0.9)
  }

  /** `limit * pressureRatio`, exactly. */
  function Threshold(s: Settings): real
  {
    s.limit as real * s.pressureRatio
  }

  /** The debounce test as written: the sweep is skipped when the last one was MORE than
      `gcMinSweep` ms ago. An unset `lastGC` makes the sum NaN and the test false. */
  predicate Debounced(lastGC: Option<int>, gcMinSweep: int, now: int)
  {
    lastGC.Some? && lastGC.value + gcMinSweep < now
  }

  /** JavaScript's `a < b` on numbers that may be `undefined`: any comparison with
      `undefined` is false. */
  predicate NumLess(a: Option<int>, b: Option<int>)
  {
    a.Some? && b.Some? && a.value < b.value
  }

  /** The TTL test as written: `time + timeout >= now` holds while the entry is still within its
      time to live. Without a timeout the sum is NaN and the test false. */
  predicate Expired<T>(e: Entry<T>, now: int)
  {
    e.timeout.Some? && e.time + e.timeout.value >= now
  }

  /** What the TTL pass keeps, in order. */
  function TtlPass<T>(s: Entries<Entry<T>>, now: int): (r: Entries<Entry<T>>)
    ensures |r| <= |s|
  {
    if s == [] then []
    else TtlPass(s[..|s| - 1], now) + (if Expired(s[|s| - 1].1, now) then [] else [s[|s| - 1]])
  }

  /** The TTL pass keeps exactly the entries the test does not select. */
  lemma {:induction false} TtlPassKeeps<T>(s: Entries<Entry<T>>, now: int)
    ensures forall i :: 0 <= i < |TtlPass(s, now)| ==> TtlPass(s, now)[i] in s && !Expired(TtlPass(s, now)[i].1, now)
    ensures forall i :: 0 <= i < |s| && !Expired(s[i].1, now) ==> s[i] in TtlPass(s, now)
    decreases |s|
  {
    if s != [] {
      var init := s[..|s| - 1];
      TtlPassKeeps(init, now);
      assert forall i :: 0 <= i < |init| ==> init[i] == s[i];
    }
  }

  /** How many entries the pressure pass selects: entries are taken while fewer than
      `size - threshold` are selected, so the count is that amount rounded up, at most `size`. */
  function VictimCount(size: nat, threshold: real): (k: nat)
    ensures k <= size
    ensures size > 0 && size as real > threshold ==> k > 0
    ensures k < size ==> k as real >= size as real - threshold
    ensures k > 0 ==> (k - 1) as real < size as real - threshold
  {
    var amount := size as real - threshold;
    if amount <= 0.0 then 0
    else
      var f := amount.Floor;
      var c := if f as real == amount then f else f + 1;
      if c > size then size else c
  }

  /** What the pressure pass keeps: the swap branch never fires, so the victims are the first
      entries in insertion order. */
  function PressurePass<T>(s: Entries<Entry<T>>, threshold: real): Entries<Entry<T>>
  {
    if |s| as real > threshold then s[VictimCount(|s|, threshold)..] else s
  }

  function Sweep<T>(s: Entries<Entry<T>>, now: int, threshold: real): Entries<Entry<T>>
  {
    PressurePass(TtlPass(s, now), threshold)
  }

  /** Storage and `lastGC` after `garbageCollect()` at time `now`. */
  function Collected<T>(s: Entries<Entry<T>>, lastGC: Option<int>, now: int, settings: Settings): (Entries<Entry<T>>, Option<int>)
  {
    if Debounced(lastGC, settings.gcMinSweep, now) then (s, lastGC)
    else (Sweep(s, now, Threshold(settings)), Some(now))
  }

  /** The first sweep always runs; after a sweep at `t`, a request later than `t + gcMinSweep`
      is skipped and leaves `lastGC` at `t`, so no sweep ever runs again. */
  lemma DebounceIsInverted<T>(s: Entries<Entry<T>>, t: int, now: int, settings: Settings)
    ensures Collected(s, None, t, settings).1 == Some(t)
    ensures now > t + settings.gcMinSweep ==> Collected(s, Some(t), now, settings) == (s, Some(t))
    ensures now <= t + settings.gcMinSweep ==> Collected(s, Some(t), now, settings).1 == Some(now)
  {
  }

  /** The TTL pass keeps a map a map. */
  lemma {:induction false} TtlPassUnique<T>(s: Entries<Entry<T>>, now: int)
    requires Unique(s)
    ensures Unique(TtlPass(s, now))
    decreases |s|
  {
    if s != [] {
      var init := s[..|s| - 1];
      assert Unique(init);
      TtlPassUnique(init, now);
      var rest := TtlPass(init, now);
      TtlPassKeeps(init, now);
      forall i | 0 <= i < |rest| ensures rest[i].0 != s[|s| - 1].0 {
        var j :| 0 <= j < |init| && init[j] == rest[i];
        assert init[j] == s[j];
      }
    }
  }

  /** The sweep only deletes: what is left is a map whose entries were all in storage,
      unchanged and no more of them. */
  lemma SweepOnlyDeletes<T>(s: Entries<Entry<T>>, now: int, threshold: real)
    requires Unique(s)
    ensures Unique(Sweep(s, now, threshold))
    ensures |Sweep(s, now, threshold)| <= |s|
    ensures forall i :: 0 <= i < |Sweep(s, now, threshold)| ==> Sweep(s, now, threshold)[i] in s
  {
    var t := TtlPass(s, now);
    TtlPassUnique(s, now);
    TtlPassKeeps(s, now);
    if |t| as real > threshold {
      var k := VictimCount(|t|, threshold);
      UniqueSuffix(t, k);
      forall i | 0 <= i < |t[k..]| ensures t[k..][i] in s {
        assert t[k..][i] == t[k + i];
      }
    }
  }

  /** An entry without a timeout survives the TTL pass. */
  lemma NoTimeoutSurvivesTtl<T>(s: Entries<Entry<T>>, now: int, i: int)
    requires 0 <= i < |s| && s[i].1.timeout.None?
    ensures s[i] in TtlPass(s, now)
  {
    TtlPassKeeps(s, now);
  }

  /** After the pressure pass the size is at most the threshold, and it removed exactly the
      rounded-up excess (or everything, when the threshold is negative). */
  lemma PressureBound<T>(s: Entries<Entry<T>>, threshold: real)
    requires |s| as real > threshold
    ensures |PressurePass(s, threshold)| as real <= threshold || PressurePass(s, threshold) == []
    ensures |s| > 0 ==> |PressurePass(s, threshold)| < |s|
    ensures |PressurePass(s, threshold)| == |s| - VictimCount(|s|, threshold)
  {
    var k := VictimCount(|s|, threshold);
    assert |PressurePass(s, threshold)| == |s| - k;
    if k < |s| {
      assert k as real >= |s| as real - threshold;
      assert (|s| - k) as real == |s| as real - k as real;
    }
  }

  lemma SplitAt<V>(a: seq<V>, s: seq<V>, i: nat)
    requires i < |s|
    ensures a + s[i..] == a + [s[i]] + s[i + 1..]
  {
    assert s[i..] == [s[i]] + s[i + 1..];
  }

  /** Deleting the key of an entry in the middle of a map drops exactly that entry. */
  lemma DropEntry<V>(a: Entries<V>, x: (string, V), b: Entries<V>)
    requires Unique(a + [x] + b)
    ensures Remove(a + [x] + b, x.0) == a + b
    ensures Unique(a + b)
  {
    var s := a + [x] + b;
    RemoveAt(s, x.0, |a|);
    RemoveUnique(s, x.0);
    assert s[..|a|] == a && s[|a| + 1..] == b;
  }

  /** The loop of the TTL sweep: each entry the test selects is deleted as it is visited. */
  method TtlDeletes<T>(snap: Entries<Entry<T>>, now: int) returns (current: Entries<Entry<T>>)
    requires Unique(snap)
    ensures current == TtlPass(snap, now)
  {
    current := snap;
    var i := 0;
    while i < |snap|
      invariant 0 <= i <= |snap|
      invariant current == TtlPass(snap[..i], now) + snap[i..]
      invariant Unique(current)
    {
      var (key, entry) := snap[i];
      TtlAdvance(snap, i, now, current);
      if Expired(entry, now) {
        current := Remove(current, key);
      }
      i := i + 1;
    }
    assert snap[..i] == snap;
  }

  /** Visiting entry `i` of the sweep: deleting it when the test selects it extends the pass. */
  lemma TtlAdvance<T>(snap: Entries<Entry<T>>, i: nat, now: int, current: Entries<Entry<T>>)
    requires i < |snap| && current == TtlPass(snap[..i], now) + snap[i..] && Unique(current)
    ensures var next := if Expired(snap[i].1, now) then Remove(current, snap[i].0) else current;
      next == TtlPass(snap[..i + 1], now) + snap[i + 1..] && Unique(next)
  {
    var kept := TtlPass(snap[..i], now);
    assert TtlPass(snap[..i + 1], now) == kept + (if Expired(snap[i].1, now) then [] else [snap[i]]) by {
      assert snap[..i + 1][..i] == snap[..i] && snap[..i + 1][i] == snap[i];
    }
    SplitAt(kept, snap, i);
    if Expired(snap[i].1, now) {
      DropEntry(kept, snap[i], snap[i + 1..]);
      assert kept + [] == kept;
    } else {
      assert current == (kept + [snap[i]]) + snap[i + 1..];
    }
  }

  /** The first `forEach` of the pressure pass: entries go into `evictEntries` while fewer than
      `size - threshold` are selected. `newestKey` is never assigned, so `undefined < time`
      and `time < undefined` are both false and the swap branch is dead. */
  method SelectVictims<T>(storage: Entries<Entry<T>>, threshold: real) returns (victims: Entries<Entry<T>>)
    requires Unique(storage)
    ensures victims == storage[..VictimCount(|storage|, threshold)]
  {
    var amount := |storage| as real - threshold;
    ghost var k := VictimCount(|storage|, threshold);
    victims := [];
    var newestKey: Option<int> := None;
    var i := 0;
    while i < |storage|
      invariant 0 <= i <= |storage|
      invariant newestKey == None
      invariant victims == storage[..if i < k then i else k]
    {
      var (key, entry) := storage[i];
      VictimStep(storage, threshold, i, victims);
      if |victims| as real < amount {
        victims := Set(victims, key, entry);
        if NumLess(newestKey, Some(entry.time)) {
          newestKey := Some(entry.time);
        }
      } else if NumLess(Some(entry.time), newestKey) {
        assert false;
      }
      i := i + 1;
    }
  }

  /** Visiting entry `i` of the selection: it is taken exactly while fewer than the victim
      count are selected, and taking it extends the selection by it. */
  lemma VictimStep<T>(storage: Entries<Entry<T>>, threshold: real, i: nat, victims: Entries<Entry<T>>)
    requires Unique(storage) && i < |storage|
    requires var k := VictimCount(|storage|, threshold); victims == storage[..if i < k then i else k]
    ensures var k := VictimCount(|storage|, threshold);
      var next := if |victims| as real < |storage| as real - threshold then Set(victims, storage[i].0, storage[i].1) else victims;
      next == storage[..if i + 1 < k then i + 1 else k]
  {
    var k := VictimCount(|storage|, threshold);
    TakenWhileBelow(|storage|, threshold, i);
    if i < k {
      PrefixLacksNext(storage, i);
      TakeNext(storage, i);
    }
  }

  /** With `min(i, k)` entries selected, fewer than the amount are selected exactly when `i < k`. */
  lemma TakenWhileBelow(size: nat, threshold: real, i: nat)
    requires i < size
    ensures var k := VictimCount(size, threshold);
      (if i < k then i else k) as real < size as real - threshold <==> i < k
  {
  }

  /** Setting the next key, when it is new, appends its entry to the prefix taken so far. */
  lemma TakeNext<V>(storage: Entries<V>, i: nat)
    requires i < |storage| && !Has(storage[..i], storage[i].0)
    ensures Set(storage[..i], storage[i].0, storage[i].1) == storage[..i + 1]
  {
    SetAbsent(storage[..i], storage[i].0, storage[i].1);
    PrefixSnoc(storage, i);
  }

  /** The prefix one entry longer. */
  lemma PrefixSnoc<T>(s: seq<T>, i: nat)
    requires i < |s|
    ensures s[..i + 1] == s[..i] + [s[i]]
  {
  }

  /** In a map with unique keys, the key of entry `i` is not among the entries before it. */
  lemma PrefixLacksNext<V>(storage: Entries<V>, i: nat)
    requires Unique(storage) && i < |storage|
    ensures !Has(storage[..i], storage[i].0)
  {
    var victims := storage[..i];
    forall j | 0 <= j < |victims| ensures victims[j].0 != storage[i].0 {
      assert victims[j] == storage[j];
    }
  }

  class LocalCache<T> {
    const settings: Settings
    /** The `storage` Map, in insertion order. */
    var storage: Entries<Entry<T>>
    /** `lastGC`: `None` until the first sweep. */
    var lastGC: Option<int>

    predicate Valid()
      reads this
    {
      Unique(storage) && (|storage| <= settings.limit || storage == [])
    }

    constructor(options: CacheOptions)
      ensures settings == WithDefaults(options)
      ensures storage == [] && lastGC == None
      ensures Valid()
    {
      settings := WithDefaults(options);
      storage := [];
      lastGC := None;
    }

    /** `evict(key)`: removes that key, if present; always resolves. */
    method Evict(key: string)
      requires Valid()
      modifies this
      ensures Valid()
      ensures storage == Remove(old(storage), key) && lastGC == old(lastGC)
    {
      RemoveUnique(storage, key);
      storage := Remove(storage, key);
    }

    /** `get(key)`: the stored value, or `null` (`None`). */
    function Get(key: string): (r: Option<T>)
      reads this
      ensures r.Some? <==> Has(storage, key)
      ensures r.Some? ==> GetRaw(key).Some? && GetRaw(key).value.value == r.value
    {
      var e := OrderedMap.Get(storage, key);
      if e.Some? then Some(e.value.value) else None
    }

    /** `getRaw(key)`: the whole entry, or `null` (`None`). */
    function GetRaw(key: string): (r: Option<Entry<T>>)
      reads this
      ensures r.Some? <==> Has(storage, key)
      ensures r.Some? ==> (key, r.value) in storage
    {
      OrderedMap.Get(storage, key)
    }

    /** `garbageCollect()` at time `now`. */
    method GarbageCollect(now: int)
      requires Valid()
      modifies this
      ensures Valid()
      ensures (storage, lastGC) == Collected(old(storage), old(lastGC), now, settings)
    {
      if lastGC.Some? && lastGC.value + settings.gcMinSweep < now {
        return;
      }
      SweepOnlyDeletes(storage, now, Threshold(settings));
      TtlPassUnique(storage, now);
      TtlSweep(now);
      var threshold := Threshold(settings);
      if |storage| as real > threshold {
        PressureSweep(threshold);
      }
      lastGC := Some(now);
    }

    /** The first `forEach` of the sweep: deletes, while iterating, every entry the TTL test
        selects. */
    method TtlSweep(now: int)
      requires Unique(storage)
      modifies this
      ensures storage == TtlPass(old(storage), now) && lastGC == old(lastGC)
    {
      storage := TtlDeletes(storage, now);
    }

    /** The pressure pass: the selected entries are deleted one by one, first to last. */
    method PressureSweep(threshold: real)
      requires Unique(storage) && |storage| as real > threshold
      modifies this
      ensures storage == PressurePass(old(storage), threshold) && lastGC == old(lastGC)
    {
      var snap := storage;
      var victims := SelectVictims(snap, threshold);
      var current := snap;
      var j := 0;
      while j < |victims|
        invariant 0 <= j <= |victims|
        invariant current == snap[j..]
        invariant storage == snap && lastGC == old(lastGC)
      {
        UniqueSuffix(snap, j);
        RemoveFirst(current);
        assert current[0] == victims[j];
        assert current[1..] == snap[j + 1..];
        current := Remove(current, victims[j].0);
        j := j + 1;
      }
      storage := current;
    }

    /** `put(key, value, evictTimeout)` at time `now`. */
    method Put(key: string, value: T, evictTimeout: Option<int>, now: int) returns (r: Result<T>)
      requires Valid()
      modifies this
      ensures Valid()
      ensures (storage, lastGC, r) == PutOutcome(old(storage), old(lastGC), settings, key, value, evictTimeout, now)
    {
      if |storage| as real > Threshold(settings) {
        GarbageCollect(now);
      }
      if |storage| >= settings.limit {
        return Err(Fault(Rejection, "Cache limit reached"));
      }
      var entry := Entry(value, now, None);
      if evictTimeout.Some? && evictTimeout.value != 0 {
        entry := entry.(timeout := evictTimeout);
      }
      SetUnique(storage, key, entry);
      storage := Set(storage, key, entry);
      return Ok(value);
    }
  }

  /** Storage, `lastGC` and result after `put(key, value, evictTimeout)` at time `now`: a
      pre-sweep when the cache is above the threshold, a rejection when it is still at the limit
      (even for a key already stored), otherwise the entry stamped with `now` is stored. */
  function PutOutcome<T>(s: Entries<Entry<T>>, lastGC: Option<int>, settings: Settings, key: string, value: T,
                         evictTimeout: Option<int>, now: int): (Entries<Entry<T>>, Option<int>, Result<T>)
  {
    var (pre, gc) := if |s| as real > Threshold(settings) then Collected(s, lastGC, now, settings) else (s, lastGC);
    if |pre| >= settings.limit then (pre, gc, Err(Fault(Rejection, "Cache limit reached")))
    else (Set(pre, key, Entry(value, now, if TruthyNumber(evictTimeout) then evictTimeout else None)), gc, Ok(value))
  }

  /** A put either is rejected and stores nothing new, or resolves to the value and makes the
      key map to an entry stamped with `now`, leaving every other key as the pre-sweep left it.
      Below the threshold nothing is swept and an old entry is never collected. */
  lemma PutOutcomeMeaning<T>(s: Entries<Entry<T>>, lastGC: Option<int>, settings: Settings, key: string, value: T,
                             evictTimeout: Option<int>, now: int, other: string)
    requires Unique(s) && other != key
    ensures var (after, gc, r) := PutOutcome(s, lastGC, settings, key, value, evictTimeout, now);
      var swept := |s| as real > Threshold(settings);
      var pre := if swept then Collected(s, lastGC, now, settings).0 else s;
      Unique(after) &&
      (r.Err? <==> |pre| >= settings.limit) &&
      (r.Err? ==> r.error == Fault(Rejection, "Cache limit reached") && after == pre) &&
      (r.Ok? ==>
        r.value == value &&
        OrderedMap.Get(after, key) == Some(Entry(value, now, if TruthyNumber(evictTimeout) then evictTimeout else None)) &&
        OrderedMap.Get(after, other) == OrderedMap.Get(pre, other)) &&
      (!swept ==> gc == lastGC && pre == s)
  {
    var swept := |s| as real > Threshold(settings);
    var pre := if swept then Collected(s, lastGC, now, settings).0 else s;
    assert Unique(pre) by {
      if swept {
        SweepOnlyDeletes(s, now, Threshold(settings));
      }
    }
    if |pre| < settings.limit {
      SetUnique(pre, key, Entry(value, now, if TruthyNumber(evictTimeout) then evictTimeout else None));
    }
  }
}

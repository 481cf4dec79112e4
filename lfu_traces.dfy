/**
 Sequences of calls on one cache: what a client observes over many `get`
 and `put` calls, and the eviction rule stated over the whole history.
 */
module LFUTraces {
  import opened Wrappers
  import opened Buckets
  import opened LFUSpec

  /** One call a client makes on the cache. */
  datatype Call<K, V> = GetCall(key: K) | PutCall(key: K, value: V)

  /** One call: its answer (`put` answers `None`) and the state it leaves. */
  function Step<K, V>(s: CacheState<K, V>, call: Call<K, V>): (r: (Option<V>, CacheState<K, V>))
    requires Consistent(s)
    ensures Consistent(r.1) && r.1.capacity == s.capacity
    ensures call.PutCall? ==> r.0 == None
  {
    match call
    case GetCall(key) =>
      Get(s, key)
    case PutCall(key, value) =>
      PutKeepsConsistent(s, key, value);
      (None, Put(s, key, value))
  }

  /** A run of calls from `s`: the answer to each call, in order, and the final state. */
  function Run<K, V>(s: CacheState<K, V>, calls: seq<Call<K, V>>): (r: (seq<Option<V>>, CacheState<K, V>))
    requires Consistent(s)
    ensures Consistent(r.1) && r.1.capacity == s.capacity
    ensures |r.0| == |calls|
    decreases |calls|
  {
    if calls == [] then ([], s)
    else
      var step := Step(s, calls[0]);
      var rest := Run(step.1, calls[1..]);
      ([step.0] + rest.0, rest.1)
  }

  /**
   A run starting from a fresh cache never holds more keys than the
   capacity, and the least count it tracks is a count some key has.
   */
  lemma RunFromEmptyStaysBounded<K, V>(capacity: int, calls: seq<Call<K, V>>)
    ensures var s := Run(Empty<K, V>(capacity), calls).1;
      && (capacity <= 0 ==> s.cache == map[])
      && (capacity > 0 ==> |s.cache| <= capacity)
      && (s.cache != map[] ==> exists k :: k in s.usage && s.usage[k] == s.minFrequency)
  {
    var s := Run(Empty<K, V>(capacity), calls).1;
    if s.cache != map[] {
      var b := s.frequency[s.minFrequency];
      assert b[0] in b;
    }
  }

  /** With a capacity that is not positive, every call misses or is ignored and the state never changes. */
  lemma {:induction false} DisabledRun<K, V>(s: CacheState<K, V>, calls: seq<Call<K, V>>)
    requires Consistent(s) && s.capacity <= 0
    ensures Run(s, calls).1 == s
    ensures forall i :: 0 <= i < |calls| ==> Run(s, calls).0[i] == None
    decreases |calls|
  {
    if calls != [] {
      var t := Step(s, calls[0]).1;
      if calls[0].PutCall? {
        PutDisabled(s, calls[0].key, calls[0].value);
      }
      assert t == s;
      DisabledRun(s, calls[1..]);
      forall i | 0 <= i < |calls|
        ensures Run(s, calls).0[i] == None
      {
        if i > 0 {
          assert Run(s, calls).0[i] == Run(s, calls[1..]).0[i - 1];
        }
      }
    }
  }

  /** Reading a key straight after writing it answers the value written, whether the key was new or resident. */
  lemma ReadYourWrite<K, V>(s: CacheState<K, V>, key: K, value: V)
    requires Consistent(s) && s.capacity > 0
    ensures var t := Step(s, PutCall(key, value)).1;
      key in t.cache && Step(t, GetCall(key)).0 == Some(value)
  {
    if key in s.cache {
      PutResident(s, key, value);
    } else {
      PutNew(s, key, value);
    }
  }

  /**
   Only a `put` of `k` changes the value stored for `k`: after a run with
   no such `put`, a key still cached was cached before, with the same value.
   */
  lemma {:induction false} ValueKeptWithoutPut<K, V>(s: CacheState<K, V>, calls: seq<Call<K, V>>, k: K)
    requires Consistent(s)
    requires forall i :: 0 <= i < |calls| ==> !(calls[i].PutCall? && calls[i].key == k)
    ensures k in Run(s, calls).1.cache ==> k in s.cache && Run(s, calls).1.cache[k] == s.cache[k]
    decreases |calls|
  {
    if calls != [] {
      var t := Step(s, calls[0]).1;
      assert k in t.cache ==> k in s.cache && t.cache[k] == s.cache[k] by {
        match calls[0]
        case GetCall(key) =>
        case PutCall(key, value) =>
          assert key != k by { assert calls[0].PutCall? && calls[0].key == key; }
          if s.capacity <= 0 {
            PutDisabled(s, key, value);
          } else if key in s.cache {
            PutResident(s, key, value);
          } else {
            PutNew(s, key, value);
          }
      }
      assert forall i :: 0 <= i < |calls[1..]| ==> calls[1..][i] == calls[i + 1];
      ValueKeptWithoutPut(t, calls[1..], k);
      assert Run(s, calls).1 == Run(t, calls[1..]).1;
    }
  }

  /**
   Read-your-write over a run: after `put(key, value)` and any later calls
   that do not `put` to `key`, a `get` of `key` answers `value` unless
   `key` has been evicted, and then it answers `None`.
   */
  lemma ReadYourWriteLater<K, V>(s: CacheState<K, V>, key: K, value: V, calls: seq<Call<K, V>>)
    requires Consistent(s) && s.capacity > 0
    requires forall i :: 0 <= i < |calls| ==> !(calls[i].PutCall? && calls[i].key == key)
    ensures var u := Run(Step(s, PutCall(key, value)).1, calls).1;
      Step(u, GetCall(key)).0 == if key in u.cache then Some(value) else None
  {
    var t := Step(s, PutCall(key, value)).1;
    ReadYourWrite(s, key, value);
    ValueKeptWithoutPut(t, calls, key);
  }

  /**
   Use counts only grow: across one call, a key resident before and after
   keeps its count unless the call was on that key, which adds exactly one.
   */
  lemma CountsGrowByOneOnUse<K, V>(s: CacheState<K, V>, call: Call<K, V>)
    requires Consistent(s)
    ensures var t := Step(s, call).1;
      forall k :: k in s.usage && k in t.usage ==>
        t.usage[k] == if k == call.key then s.usage[k] + 1 else s.usage[k]
  {
    match call
    case GetCall(key) =>
    case PutCall(key, value) =>
      if s.capacity > 0 {
        if key in s.cache {
          PutResident(s, key, value);
        } else {
          PutNew(s, key, value);
        }
      }
  }

  // ---------------------------------------------------------------- recency over a run

  /**
   The time of each resident key's last use after `call` at time `clock`:
   a hit of `get` and every `put` on an enabled cache stamp the key with
   `clock`, and an evicted key loses its stamp.
   */
  ghost function StampsAfter<K, V>(s: CacheState<K, V>, call: Call<K, V>, lastUse: map<K, nat>, clock: nat): map<K, nat>
    requires Consistent(s)
  {
    match call
    case GetCall(key) =>
      if key in s.cache then lastUse[key := clock] else lastUse
    case PutCall(key, _) =>
      StampsAfterPut(s, key, lastUse, clock)
  }

  /** The last-use times after a run whose first call happens at time `clock`. */
  ghost function RunStamps<K, V>(s: CacheState<K, V>, calls: seq<Call<K, V>>, lastUse: map<K, nat>, clock: nat): map<K, nat>
    requires Consistent(s)
    decreases |calls|
  {
    if calls == [] then lastUse
    else RunStamps(Step(s, calls[0]).1, calls[1..], StampsAfter(s, calls[0], lastUse, clock), clock + 1)
  }

  /** One call keeps every bucket ordered by last use. */
  lemma StepKeepsOrdered<K, V>(s: CacheState<K, V>, call: Call<K, V>, lastUse: map<K, nat>, clock: nat)
    requires Consistent(s) && Ordered(s, lastUse, clock)
    ensures Ordered(Step(s, call).1, StampsAfter(s, call, lastUse, clock), clock + 1)
  {
    match call
    case GetCall(key) =>
      if key in s.cache {
        TouchKeepsOrdered(s, key, lastUse, clock);
      }
    case PutCall(key, value) =>
      PutKeepsOrdered(s, key, value, lastUse, clock);
  }

  /** A whole run keeps every bucket ordered by last use. */
  lemma {:induction false} RunKeepsOrdered<K, V>(s: CacheState<K, V>, calls: seq<Call<K, V>>, lastUse: map<K, nat>, clock: nat)
    requires Consistent(s) && Ordered(s, lastUse, clock)
    ensures Ordered(Run(s, calls).1, RunStamps(s, calls, lastUse, clock), clock + |calls|)
    decreases |calls|
  {
    if calls != [] {
      var t := Step(s, calls[0]).1;
      StepKeepsOrdered(s, calls[0], lastUse, clock);
      RunKeepsOrdered(t, calls[1..], StampsAfter(s, calls[0], lastUse, clock), clock + 1);
    }
  }

  /**
   The eviction rule for one `put` of `key` into `s`: exactly one resident
   key `v` makes room for it, `v` has the smallest use count, and among
   the keys with that count it was used least recently.
   */
  ghost predicate EvictsLeastFrequentThenLeastRecent<K, V>(s: CacheState<K, V>, key: K, value: V, lastUse: map<K, nat>)
    requires Consistent(s)
  {
    && lastUse.Keys == s.cache.Keys
    && exists v :: v in s.cache && Put(s, key, value).cache.Keys == s.cache.Keys - {v} + {key}
         && forall k :: k in s.cache && k != v ==>
              || s.usage[v] < s.usage[k]
              || (s.usage[v] == s.usage[k] && lastUse[v] < lastUse[k])
  }

  /** A `put` of a new key into a full cache whose buckets are ordered by last use follows the eviction rule. */
  lemma FullPutFollowsEvictionRule<K, V>(s: CacheState<K, V>, key: K, value: V, lastUse: map<K, nat>, clock: nat)
    requires Consistent(s) && Ordered(s, lastUse, clock)
    requires s.capacity > 0 && key !in s.cache && |s.cache| >= s.capacity
    ensures EvictsLeastFrequentThenLeastRecent(s, key, value, lastUse)
  {
    PutNew(s, key, value);
    VictimIsLeastFrequentThenLeastRecent(s, lastUse, clock);
    var v := Victim(s);
    assert Put(s, key, value).cache.Keys == s.cache.Keys - {v} + {key};
  }

  /**
   The eviction rule over a history: after any run from a fresh cache, a
   `put` of a new key into the full cache follows the eviction rule, where
   call `i` of the run happened at time `i`.
   */
  lemma HistoryFollowsEvictionRule<K, V>(capacity: int, calls: seq<Call<K, V>>, key: K, value: V)
    requires capacity > 0
    requires var s := Run(Empty<K, V>(capacity), calls).1; key !in s.cache && |s.cache| >= capacity
    ensures EvictsLeastFrequentThenLeastRecent(Run(Empty<K, V>(capacity), calls).1, key, value,
                                                RunStamps(Empty<K, V>(capacity), calls, map[], 0))
  {
    var e := Empty<K, V>(capacity);
    RunKeepsOrdered(e, calls, map[], 0);
    FullPutFollowsEvictionRule(Run(e, calls).1, key, value, RunStamps(e, calls, map[], 0), |calls|);
  }

  // ---------------------------------------------------------------- a two-slot scenario

  /**
   What a scenario step needs to know of a two-slot cache: its values, its
   counts, its least count and the listed buckets.
   */
  ghost predicate Shows(s: CacheState<int, char>, cache: map<int, char>, usage: map<int, int>,
                        minFrequency: int, buckets: map<int, seq<int>>)
  {
    && Consistent(s) && s.capacity == 2
    && s.cache == cache && s.usage == usage && s.minFrequency == minFrequency
    && forall c :: c in buckets ==> c in s.frequency && s.frequency[c] == buckets[c]
  }

  /** `put(1, 'a')` on an empty two-slot cache. */
  lemma ScenarioPut1()
    ensures Shows(Step(Empty<int, char>(2), PutCall(1, 'a')).1, map[1 := 'a'], map[1 := 1], 1, map[1 := [1]])
  {
    PutNew(Empty<int, char>(2), 1, 'a');
  }

  /** `put(2, 'b')`: both keys used once, 1 the older. */
  lemma ScenarioPut2(s: CacheState<int, char>)
    requires Shows(s, map[1 := 'a'], map[1 := 1], 1, map[1 := [1]])
    ensures Shows(Step(s, PutCall(2, 'b')).1, map[1 := 'a', 2 := 'b'], map[1 := 1, 2 := 1], 1, map[1 := [1, 2]])
  {
    PutNew(s, 2, 'b');
  }

  /** `get(1)` answers 'a' and moves key 1 to bucket 2. */
  lemma ScenarioGet1(s: CacheState<int, char>)
    requires Shows(s, map[1 := 'a', 2 := 'b'], map[1 := 1, 2 := 1], 1, map[1 := [1, 2]])
    ensures Step(s, GetCall(1)).0 == Some('a')
    ensures Shows(Step(s, GetCall(1)).1, map[1 := 'a', 2 := 'b'], map[1 := 2, 2 := 1], 1, map[1 := [2], 2 := [1]])
  {
    assert Bucket(s, 2) == [] by {
      if 2 in s.frequency && s.frequency[2] != [] {
        assert s.frequency[2][0] in s.frequency[2];
      }
    }
    TouchMovesKey(s, 1);
    RemoveHead(s.frequency[1]);
    var t := Touch(s, 1);
    assert t.usage == map[1 := 2, 2 := 1];
    assert t.frequency[1] == [2] && t.frequency[2] == [1];
  }

  /** The key `put(3, 'c')` evicts: key 2, the only key used once. */
  lemma ScenarioVictim2(s: CacheState<int, char>)
    requires Shows(s, map[1 := 'a', 2 := 'b'], map[1 := 2, 2 := 1], 1, map[1 := [2], 2 := [1]])
    ensures Victim(s) == 2
  {
  }

  /** Evicting key 2 leaves key 1 alone, in bucket 2, and bucket 1 empty. */
  lemma ScenarioEvict2(s: CacheState<int, char>)
    requires Shows(s, map[1 := 'a', 2 := 'b'], map[1 := 2, 2 := 1], 1, map[1 := [2], 2 := [1]])
    ensures var e := Evict(s);
      && e.cache == map[1 := 'a'] && e.usage == map[1 := 2] && e.minFrequency == 1
      && 1 in e.frequency && e.frequency[1] == [] && 2 in e.frequency && e.frequency[2] == [1]
  {
    ScenarioVictim2(s);
    assert (map[1 := 'a', 2 := 'b'] - {2}) == map[1 := 'a'];
    assert (map[1 := 2, 2 := 1] - {2}) == map[1 := 2];
  }

  /** `put(3, 'c')` into the full cache evicts key 2 and adds 3 to bucket 1. */
  lemma ScenarioPut3(s: CacheState<int, char>)
    requires Shows(s, map[1 := 'a', 2 := 'b'], map[1 := 2, 2 := 1], 1, map[1 := [2], 2 := [1]])
    ensures Shows(Step(s, PutCall(3, 'c')).1, map[1 := 'a', 3 := 'c'], map[1 := 2, 3 := 1], 1, map[1 := [3], 2 := [1]])
  {
    ScenarioEvict2(s);
    var e := Evict(s);
    assert Step(s, PutCall(3, 'c')).1 == Insert(e, 3, 'c');
  }

  /**
   `get(3)` answers 'c' and empties bucket 1, the least count's bucket:
   bucket 1 stays allocated and the least count becomes 2.
   */
  lemma ScenarioGet3(s: CacheState<int, char>)
    requires Shows(s, map[1 := 'a', 3 := 'c'], map[1 := 2, 3 := 1], 1, map[1 := [3], 2 := [1]])
    ensures Step(s, GetCall(3)).0 == Some('c')
    ensures Shows(Step(s, GetCall(3)).1, map[1 := 'a', 3 := 'c'], map[1 := 2, 3 := 2], 2, map[1 := [], 2 := [1, 3]])
  {
    TouchMovesKey(s, 3);
    RemoveHead(s.frequency[1]);
  }

  /** The key `put(4, 'd')` evicts: keys 1 and 3 share the least count and 1 is older. */
  lemma ScenarioVictim1(s: CacheState<int, char>)
    requires Shows(s, map[1 := 'a', 3 := 'c'], map[1 := 2, 3 := 2], 2, map[1 := [], 2 := [1, 3]])
    ensures Victim(s) == 1 && Evict(s).cache == map[3 := 'c']
  {
    assert (map[1 := 'a', 3 := 'c'] - {1}) == map[3 := 'c'];
  }

  /** `put(4, 'd')` into the full cache evicts key 1. */
  lemma ScenarioPut4(s: CacheState<int, char>)
    requires Shows(s, map[1 := 'a', 3 := 'c'], map[1 := 2, 3 := 2], 2, map[1 := [], 2 := [1, 3]])
    ensures Step(s, PutCall(4, 'd')).1.cache == map[3 := 'c', 4 := 'd']
  {
    ScenarioVictim1(s);
    var e := Evict(s);
    assert Step(s, PutCall(4, 'd')).1 == Insert(e, 4, 'd');
  }

  /** Afterwards 1 misses while 3 and 4 hit. */
  lemma ScenarioReads(s: CacheState<int, char>)
    requires Consistent(s) && s.cache == map[3 := 'c', 4 := 'd']
    ensures Step(s, GetCall(1)).0 == None
    ensures Step(s, GetCall(3)).0 == Some('c')
    ensures Step(s, GetCall(4)).0 == Some('d')
  {
    assert 1 !in s.cache && s.cache[3] == 'c' && s.cache[4] == 'd';
  }

  /**
   Two slots, call by call, with `s1` to `s7` the states after each call:
   `put(1, 'a')`, `put(2, 'b')`, `get(1)` answers 'a', `put(3, 'c')` evicts
   2, `get(2)` misses, `get(3)` answers 'c', `put(4, 'd')` evicts 1 (same
   count as 3, but older); then 1 misses and 3 and 4 hit.
   */
  lemma TwoSlotScenario(s1: CacheState<int, char>, s2: CacheState<int, char>, s3: CacheState<int, char>,
                        s4: CacheState<int, char>, s5: CacheState<int, char>, s6: CacheState<int, char>,
                        s7: CacheState<int, char>)
    requires s1 == Step(Empty<int, char>(2), PutCall(1, 'a')).1
    requires s2 == Step(s1, PutCall(2, 'b')).1
    requires s3 == Step(s2, GetCall(1)).1
    requires s4 == Step(s3, PutCall(3, 'c')).1
    requires s5 == Step(s4, GetCall(2)).1
    requires s6 == Step(s5, GetCall(3)).1
    requires s7 == Step(s6, PutCall(4, 'd')).1
    ensures Step(s2, GetCall(1)).0 == Some('a')
    ensures s4.cache == map[1 := 'a', 3 := 'c']
    ensures Step(s4, GetCall(2)).0 == None
    ensures Step(s5, GetCall(3)).0 == Some('c')
    ensures s7.cache == map[3 := 'c', 4 := 'd']
    ensures Step(s7, GetCall(1)).0 == None
    ensures Step(s7, GetCall(3)).0 == Some('c')
    ensures Step(s7, GetCall(4)).0 == Some('d')
  {
    ScenarioPut1();
    ScenarioPut2(s1);
    ScenarioGet1(s2);
    ScenarioPut3(s3);
    assert 2 !in s4.cache;
    assert s5 == s4;
    ScenarioGet3(s4);
    ScenarioPut4(s6);
    ScenarioReads(s7);
  }
}

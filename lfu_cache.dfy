/**
 The cache object itself: the fields of `LFUCache<K, V>` updated in place by
 `Get` and `Put`, step for step as the Java methods do, each proved to leave
 the object in the state the functions of module LFUSpec compute.
 */
module LFU {
  import opened Wrappers
  import opened Buckets
  import LFUSpec

  class LFUCache<K(==), V> {
    /** key to value */
    var cache: map<K, V>
    /** key to use count */
    var usage: map<K, int>
    /** use count to the keys with that count, oldest first */
    var frequency: map<int, seq<K>>
    const capacity: int
    /** the smallest use count among resident keys, -1 while none has been inserted */
    var minFrequency: int


    /** The fields as a value. */
    function State(): LFUSpec.CacheState<K, V>
      reads this
    {
      LFUSpec.CacheState(cache, usage, frequency, capacity, minFrequency)
    }

    ghost predicate Valid()
      reads this
    {
      LFUSpec.Consistent(State())
    }

    /** An empty cache holding at most `capacity` keys, with the bucket for count 1 allocated. */
    constructor (capacity: int)
      ensures Valid() && State() == LFUSpec.Empty(capacity)
    {
      this.capacity := capacity;
      minFrequency := -1;
      cache := map[];
      usage := map[];
      frequency := map[1 := []];
    }

    /**
     The frequency bump of `get` on a resident key: its count goes up by
     one and it moves from its bucket to the end of the next one. The
     bucket it leaves is dropped if it was the least count's bucket, is now
     empty and is not bucket 1; `minFrequency` then moves up by one.
     */
    method Bump(key: K)
      requires key in usage && usage[key] in frequency
      modifies this
      ensures State() == LFUSpec.Touch(old(State()), key)
    {
      var count := usage[key];
      usage := usage[key := count + 1];
      frequency := frequency[count := Remove(frequency[count], key)];
      if count == minFrequency && |frequency[count]| == 0 {
        if count != 1 {
          frequency := frequency - {count};
        }
        minFrequency := minFrequency + 1;
      }
      var keys := if count + 1 in frequency then frequency[count + 1] else [];
      keys := Add(keys, key);
      frequency := frequency[count + 1 := keys];
    }

    /**
     The value stored for `key`, or `None` on a miss. A hit raises the
     key's count by one and moves it to the end of the next bucket.
     */
    method Get(key: K) returns (r: Option<V>)
      requires Valid()
      modifies this
      ensures Valid()
      ensures (r, State()) == LFUSpec.Get(old(State()), key)
      ensures key !in old(cache) ==> unchanged(this)
    {
      if key !in cache {
        return None;
      }
      ghost var s := State();
      LFUSpec.TouchKeepsConsistent(s, key);
      Bump(key);
      r := Some(cache[key]);
    }

    /**
     Stores `value` under `key`. Does nothing when the capacity is not
     positive; a resident key is overwritten and read once; a new key
     first evicts the oldest key of the least count when the cache is full.
     */
    method Put(key: K, value: V)
      requires Valid()
      modifies this
      ensures Valid()
      ensures State() == LFUSpec.Put(old(State()), key, value)
      ensures capacity <= 0 ==> unchanged(this)
    {
      if capacity <= 0 {
        return;
      }
      ghost var s := State();
      if key in cache {
        LFUSpec.OverwriteKeepsConsistent(s, key, value);
        cache := cache[key := value];
        var _ := Get(key);
        return;
      }

      if |cache| >= capacity {
        LFUSpec.EvictKeepsIndexed(s);
        var evict := frequency[minFrequency][0];
        frequency := frequency[minFrequency := Remove(frequency[minFrequency], evict)];
        cache := cache - {evict};
        usage := usage - {evict};
        assert State() == LFUSpec.Evict(s);
      }

      ghost var e := State();
      LFUSpec.InsertKeepsIndexed(e, key, value);
      cache := cache[key := value];
      usage := usage[key := 1];
      minFrequency := 1;
      frequency := frequency[1 := Add(frequency[1], key)];
    }
  }
}

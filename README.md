# LFU cache in Dafny

This project models `LFUCache<K, V>` (LFUCache.java), a fixed-capacity key/value
cache that evicts the least frequently used key when it is full. Among the keys
with the least use count, it evicts the one that entered that count's bucket
first. The cache keeps four indexes:

- `cache`: key to value;
- `usage`: key to use count;
- `frequency`: use count to a `LinkedHashSet` of the keys with that count;
- `minFrequency`: the least count, `-1` before the first insertion.

Its public operations are the constructor, `get` and `put`.

The model has five modules, one per file:

- `Wrappers` (wrappers.dfy): `Option`. A miss, which Java reports as `null`, is `None`.
- `Buckets` (buckets.dfy): a `LinkedHashSet<K>` as a duplicate-free sequence, oldest key first.
  - `Remove` and `Add` are the set's `remove` and `add`.
  - The head of the sequence is what the set's iterator yields first.
  - `Increasing` says a bucket lists its keys in increasing order of a time stamp.
- `LFUSpec` (lfu_spec.dfy): the five fields as a value `CacheState`, with `get` and `put` as functions on it.
  - `Touch` is the frequency bump inside `get`.
  - `Victim` and `Evict` are the eviction inside `put`; `Insert` is the insertion of a new key.
  - `Consistent` is the invariant that ties the indexes together, and the lemmas prove that every operation keeps it.
  - `Ordered` relates each bucket's order to the time of each key's last use.
- `LFU` (lfu_cache.dfy): the class `LFUCache` with the same fields, updated in place by `Get` and `Put` step by step as the Java methods do.
  - Each method is proved to keep `Valid()`.
  - Each method is proved to leave the object in the state the `LFUSpec` function computes.
  - `Bump` is the frequency-bump part of `get` (lines 47-67), written as its own method.
- `LFUTraces` (lfu_traces.dfy): sequences of calls.
  - `Run` gives the answers and final state of a run of calls.
  - Lemmas cover the disabled cache, read-your-write (straight after the `put` and after any later calls), and the growth of counts.
  - The eviction rule is proved over any history: least count first, then least recently used.
  - A two-slot scenario is followed call by call.

The model follows the code on three points a reader might expect otherwise:

- Eviction happens when `cache.size() >= capacity` (line 95), not only when the size equals the capacity.
- The code frees an emptied bucket only in `get`, and only when it was the bucket of the least count and its count is not 1 (lines 56-59). Eviction never drops the bucket it empties (line 97). Other emptied buckets linger. `Consistent` therefore allows empty buckets, and the model keeps them exactly where the code does.
- The insertion order within a bucket is the order of last use: a key enters bucket `c` at the moment it is used for the `c`-th time. Ties among keys with the least count go to the key that entered the bucket first. `Ordered` and `RunKeepsOrdered` prove that this is the least recently used key.

## Model

| member | source | states |
|---|---|---|
| Buckets.Remove | LFUCache.java:49 | `remove` of a present key shortens the bucket by exactly one; `remove` of an absent key leaves it unchanged |
| Buckets.RemoveMember | LFUCache.java:49 | `remove` on a duplicate-free bucket: afterwards a key is in it exactly when it was before and is not the removed key |
| Buckets.RemoveShifts | LFUCache.java:49 | `remove` keeps the other keys in their order: keys before the removed one keep their position, later ones move up by one |
| Buckets.RemoveKeepsDistinct | LFUCache.java:49 | removing a key from a duplicate-free bucket leaves it duplicate-free |
| Buckets.RemoveSole | LFUCache.java:56 | a bucket is empty after a removal exactly when the removed key was its only member (the `size() == 0` test) |
| Buckets.RemoveHead | LFUCache.java:96-97 | removing the key the iterator yields first leaves the rest of the bucket in order |
| Buckets.DropOldest | LFUCache.java:96-97 | dropping the first key of a duplicate-free bucket keeps it duplicate-free and removes exactly that key |
| Buckets.Add | LFUCache.java:66 | `add` of an absent key appends it as the newest member after the unchanged old members; `add` of a present key changes nothing |
| Buckets.AddKeepsDistinct | LFUCache.java:66 | `add` keeps a bucket duplicate-free |
| Buckets.RemoveKeepsIncreasing | LFUCache.java:14-17 | removal keeps a bucket in insertion order |
| Buckets.AppendNewest | LFUCache.java:110 | a key stamped later than every member, added as the newest, keeps the bucket in order |
| Buckets.RestampOther | LFUCache.java:65-67 | re-stamping a key outside a bucket does not disturb its order |
| LFUSpec.Empty | LFUCache.java:27-37 | the constructed cache is consistent: nothing cached, `minFrequency` is -1, and the only bucket is an empty one for count 1 |
| LFUSpec.BucketHoldsCount | LFUCache.java:65 | `getOrDefault(count, ...)`: while the indexes agree, the bucket for a count holds exactly the resident keys with that count, and none when the count has no bucket |
| LFUSpec.Touch | LFUCache.java:47-67 | the bump keeps every value and the capacity, and raises this key's count by exactly one while every other count stays the same |
| LFUSpec.TouchBucketAt | LFUCache.java:49-67 | bucket by bucket: bucket `count + 1` gains the key as newest; bucket `count` loses it and is gone exactly when it was the emptied least bucket and not bucket 1; every other bucket is unchanged |
| LFUSpec.TouchMovesKey | LFUCache.java:47-67 | the bump: the value stays; only this key's count rises, by one; the key moves from bucket `count` to the end of bucket `count + 1`; no other bucket changes; `minFrequency` becomes `count + 1` exactly when the key was alone at the least count |
| LFUSpec.TouchKeepsBucketsExact | LFUCache.java:47-67 | after the bump every key in a bucket has that bucket's count |
| LFUSpec.TouchKeepsBucketsAreSets | LFUCache.java:49-67 | after the bump no bucket holds a key twice |
| LFUSpec.TouchKeepsFiled | LFUCache.java:47-67 | after the bump every resident key is in the bucket for its count |
| LFUSpec.TouchKeepsMinTracked | LFUCache.java:56-61 | after the bump `minFrequency` is still the least count and its bucket is non-empty |
| LFUSpec.TouchKeepsConsistent | LFUCache.java:47-67 | the bump keeps the whole invariant |
| LFUSpec.Get | LFUCache.java:40-71 | a miss answers `None` and changes nothing; a hit answers the stored value and keeps the values; the result state is consistent |
| LFUSpec.Victim | LFUCache.java:95-96 | the key `put` evicts is resident, has count `minFrequency`, and no resident key has a smaller count |
| LFUSpec.Evict | LFUCache.java:95-100 | eviction removes exactly the victim from `cache` and `usage` and drops the head of the least bucket, which stays allocated; capacity and `minFrequency` are unchanged |
| LFUSpec.EvictKeepsBuckets | LFUCache.java:96-99 | after eviction every bucket is still duplicate-free and holds only keys with its count |
| LFUSpec.EvictKeepsFiled | LFUCache.java:96-99 | after eviction every remaining key is still in the bucket for its count |
| LFUSpec.EvictKeepsIndexed | LFUCache.java:95-100 | after eviction the indexes still agree and the cache holds one key fewer |
| LFUSpec.InsertAppends | LFUCache.java:110 | inserting an absent key appends it to bucket 1 and changes no other bucket |
| LFUSpec.InsertKeepsBuckets | LFUCache.java:107-110 | after the insertion every bucket is duplicate-free and holds only keys with its count |
| LFUSpec.InsertKeepsIndexed | LFUCache.java:107-110 | the insertion keeps the indexes in agreement, makes 1 the least count, and grows the cache by one key |
| LFUSpec.PutKeepsConsistent | LFUCache.java:73-111 | `put` keeps the whole invariant, in particular at most `capacity` keys |
| LFUSpec.OverwriteKeepsConsistent | LFUCache.java:80-81 | overwriting a resident key's value keeps the invariant |
| LFUSpec.PutDisabled | LFUCache.java:74 | with capacity at most 0 the cache is empty and `put` changes nothing |
| LFUSpec.PutResident | LFUCache.java:80-84 | `put` on a resident key stores the new value, keeps the key set and size, raises that key's count by one, and makes it the newest key of the next bucket |
| LFUSpec.PutNew | LFUCache.java:95-110 | `put` of a new key maps it to the value with count 1 as the newest key of bucket 1, sets `minFrequency` to 1, and keeps the size within capacity; with room it changes nothing else; when full, exactly the victim leaves and the size stays the same |
| LFUSpec.TouchKeepsOrderedAt | LFUCache.java:65-67 | one bucket after a bump stamped now is still ordered by last use |
| LFUSpec.TouchKeepsOrdered | LFUCache.java:47-67 | a bump stamped now keeps every bucket ordered by last use |
| LFUSpec.EvictKeepsOrdered | LFUCache.java:96-99 | eviction keeps every bucket ordered by last use |
| LFUSpec.InsertKeepsOrdered | LFUCache.java:107-110 | a new key stamped now keeps every bucket ordered by last use |
| LFUSpec.PutKeepsOrdered | LFUCache.java:73-111 | `put` keeps every bucket ordered by last use |
| LFUSpec.VictimIsLeastFrequentThenLeastRecent | LFUCache.java:86-96 | every other resident key has a larger count than the victim, or the same count and a later last use |
| LFU.LFUCache.constructor | LFUCache.java:27-37 | the new object is valid and equals the empty state |
| LFU.LFUCache.Bump | LFUCache.java:47-67 | updating the fields in place leaves exactly the state of the bump |
| LFU.LFUCache.Get | LFUCache.java:40-71 | the object stays valid; the answer and new fields are those of `get`; a miss changes nothing |
| LFU.LFUCache.Put | LFUCache.java:73-111 | the object stays valid; the new fields are those of `put`; a disabled cache changes nothing |
| LFUTraces.Step | LFUCache.java:40-111 | one call keeps the invariant and the capacity; a `put` answers nothing |
| LFUTraces.Run | LFUCache.java:40-111 | a run of calls keeps the invariant and gives one answer per call |
| LFUTraces.RunFromEmptyStaysBounded | LFUCache.java:95-110 | from a fresh cache, any run holds at most `capacity` keys (none when capacity is not positive), and `minFrequency` is the count of a resident key |
| LFUTraces.DisabledRun | LFUCache.java:74 | with capacity at most 0, every call of any run answers `None` and the state never changes |
| LFUTraces.ReadYourWrite | LFUCache.java:80-110 | a `get` straight after `put(key, value)` answers `value`, whether the key was resident or new |
| LFUTraces.ValueKeptWithoutPut | LFUCache.java:40-111 | across any run with no `put` of `k`, a key still cached afterwards was cached before, with the same value: only `put(k, ...)` (line 81 or 110) stores a value for `k` |
| LFUTraces.ReadYourWriteLater | LFUCache.java:40-111 | after `put(key, value)` and any later calls that do not `put` to `key`, `get(key)` answers `value` while `key` is cached and `None` once it has been evicted |
| LFUTraces.CountsGrowByOneOnUse | LFUCache.java:48 | across one call, a key resident before and after keeps its count, or gains exactly one when the call was on it |
| LFUTraces.StepKeepsOrdered | LFUCache.java:14-17 | one call keeps every bucket ordered by last use |
| LFUTraces.RunKeepsOrdered | LFUCache.java:14-17 | a whole run keeps every bucket ordered by last use, with call `i` stamped `i` |
| LFUTraces.FullPutFollowsEvictionRule | LFUCache.java:86-100 | a `put` of a new key into a full, ordered cache removes exactly one key, with the least count and, among those, the least recent use |
| LFUTraces.HistoryFollowsEvictionRule | LFUCache.java:86-100 | after any run from a fresh cache, a `put` into the full cache evicts the key with the least count and, among those, the least recently used |
| LFUTraces.ScenarioGet3 | LFUCache.java:56-61 | `get` empties the least bucket: bucket 1 stays allocated and `minFrequency` goes from 1 to 2 |
| LFUTraces.ScenarioVictim1 | LFUCache.java:96 | with two keys at the least count, `put` evicts the older one |
| LFUTraces.TwoSlotScenario | LFUCache.java:40-111 | capacity 2, for the call sequence `put(1)`, `put(2)`, `get(1)`, `put(3)`, `get(2)`, `get(3)`, `put(4)`: every answer and the keys left after each eviction |

## Left out

- Java's `HashMap` and `LinkedHashSet` are Dafny maps and duplicate-free sequences. Hashing, the iterator object and the O(1) running time (line 5) cannot be expressed in the model.
- Each bucket is a value held in `frequency`, not a shared object. `frequency.get(count).remove(key)` (line 49) and `getOrDefault`/`add`/`put` (lines 65-67) are reassignments of the map entry. Nothing else holds a bucket, so no aliasing is lost.
- `null` as a stored value: a miss is `None`. A hit on a key stored with `null` would be `Some` of that value, while Java's `get` cannot tell it from a miss (lines 41 and 70).
- Java `int` overflow of a use count at `count + 1` (line 48): counts are unbounded integers. The Java code would wrap a key read 2^31 - 1 times to a negative count.
- Thread safety: the class has no synchronisation. The model is sequential.
- The paper cited on line 6 is a reference only.
- LFU.LFUCache: keeps no time stamps. Recency is proved on the state functions (`LFUSpec.Ordered`, `LFUTraces.RunKeepsOrdered`). It applies to the class through `Get` and `Put`, whose `ensures` equate the new fields with those functions.
- LFUSpec.Put and LFUSpec.Insert: carry no contract of their own. `PutDisabled`, `PutResident`, `PutNew` and `PutKeepsConsistent` state what `put` does, and `InsertAppends` and `InsertKeepsIndexed` state what the insertion does.

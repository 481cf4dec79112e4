/**
 A frequency bucket of the cache is a `LinkedHashSet<K>`: a set of keys that
 remembers the order in which they were added. It is modelled as a sequence
 without duplicates, oldest key first, so that the set's iterator yields
 the head of the sequence first.
 */
module Buckets {

  /** The key at position `i`; proofs name positions through it to use `Distinct`. */
  function At<K>(s: seq<K>, i: int): K
    requires 0 <= i < |s|
  {
    s[i]
  }

  /**
   No key occurs twice: the set half of a LinkedHashSet. The quantifier is
   triggered on `At` only, so that it is used where a proof names two
   positions rather than for every pair of positions in sight.
   */
  predicate Distinct<K(==)>(s: seq<K>) {
    forall i, j {:trigger At(s, i), At(s, j)} :: 0 <= i < j < |s| ==> At(s, i) != At(s, j)
  }

  /** Where `x` first occurs in `s`. */
  function IndexOf<K(==)>(s: seq<K>, x: K): (i: nat)
    requires x in s
    ensures i < |s| && s[i] == x && x !in s[..i]
  {
    if s[0] == x then 0 else 1 + IndexOf(s[1..], x)
  }

  /** `LinkedHashSet.remove`: take `x` out and close the gap, keeping the others in their order. */
  function Remove<K(==)>(s: seq<K>, x: K): (r: seq<K>)
    ensures x in s ==> |r| == |s| - 1
    ensures x !in s ==> r == s
  {
    if x in s then
      var i := IndexOf(s, x);
      seq(|s| - 1, j requires 0 <= j < |s| - 1 => if j < i then s[j] else s[j + 1])
    else
      s
  }

  /** Removing the oldest key leaves the rest of the bucket as it was. */
  lemma RemoveHead<K>(s: seq<K>)
    requires s != []
    ensures Remove(s, s[0]) == s[1..]
  {
    var r := Remove(s, s[0]);
    assert IndexOf(s, s[0]) == 0;
    forall a | 0 <= a < |r|
      ensures r[a] == s[1..][a]
    {
    }
  }

  /** A bucket that loses one of its keys is left empty exactly when that was its only key. */
  lemma RemoveSole<K>(s: seq<K>, x: K)
    requires x in s
    ensures Remove(s, x) == [] <==> s == [x]
  {
    if Remove(s, x) == [] {
      assert |s| == 1;
    }
  }

  /** `LinkedHashSet.add`: a new key becomes the newest member; a present one keeps its place. */
  function Add<K(==)>(s: seq<K>, x: K): (r: seq<K>)
    ensures x in r
    ensures x !in s ==> |r| == |s| + 1 && r[..|s|] == s && r[|s|] == x
    ensures x in s ==> r == s
  {
    if x in s then s else s + [x]
  }

  /** Adding a key to a bucket without duplicates leaves it without duplicates. */
  lemma AddKeepsDistinct<K>(s: seq<K>, x: K)
    requires Distinct(s)
    ensures Distinct(Add(s, x))
  {
    if x !in s {
      var r := Add(s, x);
      forall i, j | 0 <= i < j < |r|
        ensures At(r, i) != At(r, j)
      {
        assert r[i] == s[i];
        if j < |s| {
          assert r[j] == s[j] && At(s, i) != At(s, j);
        }
      }
    }
  }

  /** After `Remove`, position `a` holds the key that was at `a` before the gap and at `a + 1` after it. */
  lemma RemoveShifts<K>(s: seq<K>, x: K, a: nat)
    requires x in s && a < |Remove(s, x)|
    ensures Remove(s, x)[a] == s[if a < IndexOf(s, x) then a else a + 1]
  {
  }

  /** Removing a key from a bucket without duplicates drops exactly that key. */
  lemma RemoveMember<K>(s: seq<K>, x: K, y: K)
    requires Distinct(s)
    ensures y in Remove(s, x) <==> y in s && y != x
  {
    if x in s {
      var i := IndexOf(s, x);
      var r := Remove(s, x);
      if y in r {
        var a :| 0 <= a < |r| && r[a] == y;
        RemoveShifts(s, x, a);
        var a' := if a < i then a else a + 1;
        assert s[a'] == y;
        assert At(s, a') != At(s, i);
      }
      if y in s && y != x {
        var b :| 0 <= b < |s| && s[b] == y;
        assert b != i;
        var b' := if b < i then b else b - 1;
        RemoveShifts(s, x, b');
        assert r[b'] == y;
      }
    }
  }

  /** Dropping the oldest key of a bucket without duplicates drops exactly that key. */
  lemma DropOldest<K>(s: seq<K>, y: K)
    requires Distinct(s) && s != []
    ensures Distinct(s[1..])
    ensures y in s[1..] <==> y in s && y != s[0]
  {
    if y in s && y != s[0] {
      var i :| 0 <= i < |s| && s[i] == y;
      assert s[1..][i - 1] == y;
    }
    if y in s[1..] {
      var i :| 0 <= i < |s| - 1 && s[1..][i] == y;
      assert At(s, 0) != At(s, i + 1);
    }
    forall i, j | 0 <= i < j < |s| - 1
      ensures At(s[1..], i) != At(s[1..], j)
    {
      assert At(s, i + 1) != At(s, j + 1);
    }
  }

  /** Removing a key from a bucket leaves it without duplicates. */
  lemma RemoveKeepsDistinct<K>(s: seq<K>, x: K)
    requires Distinct(s)
    ensures Distinct(Remove(s, x))
  {
    if x in s {
      var r := Remove(s, x);
      var i := IndexOf(s, x);
      forall a, b | 0 <= a < b < |r|
        ensures At(r, a) != At(r, b)
      {
        RemoveShifts(s, x, a);
        RemoveShifts(s, x, b);
        var a', b' := (if a < i then a else a + 1), (if b < i then b else b + 1);
        assert At(s, a') != At(s, b');
      }
    }
  }

  /**
   The keys of `s` were added at strictly increasing times `stamp`: the
   insertion order a LinkedHashSet keeps.
   */
  ghost predicate Increasing<K>(s: seq<K>, stamp: map<K, nat>) {
    && (forall i :: 0 <= i < |s| ==> s[i] in stamp)
    && (forall i, j {:trigger At(s, i), At(s, j)} :: 0 <= i < j < |s| ==> stamp[At(s, i)] < stamp[At(s, j)])
  }

  /** Removing a key keeps the remaining keys in insertion order. */
  lemma RemoveKeepsIncreasing<K>(s: seq<K>, x: K, stamp: map<K, nat>)
    requires Increasing(s, stamp)
    ensures Increasing(Remove(s, x), stamp)
  {
    if x in s {
      var r := Remove(s, x);
      forall a | 0 <= a < |r|
        ensures r[a] in stamp
      {
        RemoveShifts(s, x, a);
      }
      var i := IndexOf(s, x);
      forall a, b | 0 <= a < b < |r|
        ensures stamp[At(r, a)] < stamp[At(r, b)]
      {
        RemoveShifts(s, x, a);
        RemoveShifts(s, x, b);
        var a', b' := (if a < i then a else a + 1), (if b < i then b else b + 1);
        assert stamp[At(s, a')] < stamp[At(s, b')];
      }
    }
  }

  /** Re-stamping a key that is not in the bucket leaves the bucket in order. */
  lemma RestampOther<K>(s: seq<K>, stamp: map<K, nat>, x: K, n: nat)
    requires Increasing(s, stamp) && x !in s
    ensures Increasing(s, stamp[x := n])
  {
    forall i, j | 0 <= i < j < |s|
      ensures stamp[x := n][At(s, i)] < stamp[x := n][At(s, j)]
    {
      assert s[i] != x && s[j] != x;
      assert stamp[At(s, i)] < stamp[At(s, j)];
    }
  }

  /** A key stamped later than every member may be added as the newest. */
  lemma AppendNewest<K>(s: seq<K>, stamp: map<K, nat>, x: K, n: nat)
    requires Increasing(s, stamp) && x !in s
    requires forall i :: 0 <= i < |s| ==> stamp[s[i]] < n
    ensures Increasing(s + [x], stamp[x := n])
  {
    var r := s + [x];
    var st := stamp[x := n];
    forall i | 0 <= i < |r|
      ensures r[i] in st
    {
    }
    forall i, j | 0 <= i < j < |r|
      ensures st[At(r, i)] < st[At(r, j)]
    {
      assert r[i] == s[i] && r[i] != x;
      if j < |s| {
        assert r[j] == s[j] && r[j] != x;
        assert stamp[At(s, i)] < stamp[At(s, j)];
      }
    }
  }
}

/** Swift dictionaries and sets seen through their iteration order: a
    dictionary is the sequence of its `(key, value)` entries, in whatever order
    the hash table happens to yield them, with no key repeated. Anything
    computed from such a sequence is order independent exactly when it is
    equal on rearrangements (equal multisets) of the entries. */
module Dictionaries {
  import opened Wrappers
  import opened Ordering

  /** No key occurs twice, as in every Swift dictionary. */
  ghost predicate DistinctKeys<K, V>(d: seq<(K, V)>) {
    forall i, j :: 0 <= i < j < |d| ==> d[i].0 != d[j].0
  }

  /** `dictionary.keys`, in iteration order. */
  function Keys<K, V>(d: seq<(K, V)>): (r: seq<K>)
    ensures |r| == |d|
    ensures forall i :: 0 <= i < |d| ==> r[i] == d[i].0
  {
    seq(|d|, i requires 0 <= i < |d| => d[i].0)
  }

  /** `dictionary[key]`: the value stored under `k`, or `Nil` when `k` is not
      a key. */
  function Lookup<K(==), V>(d: seq<(K, V)>, k: K): (r: Option<V>)
    ensures r.Some? <==> k in Keys(d)
    ensures r.Some? ==> (k, r.value) in d
    decreases |d|
  {
    if |d| == 0 then Nil
    else if d[0].0 == k then Some(d[0].1)
    else
      assert Keys(d) == [d[0].0] + Keys(d[1..]);
      Lookup(d[1..], k)
  }

  /** In a dictionary the entry stored under a key is the one `Lookup` finds. */
  lemma LookupFindsEntry<K, V>(d: seq<(K, V)>, k: K, v: V)
    requires DistinctKeys(d)
    requires (k, v) in d
    ensures Lookup(d, k) == Some(v)
  {
    var i :| 0 <= i < |d| && d[i] == (k, v);
    assert d[i].0 == k;
    var j :| 0 <= j < |d| && d[j] == (k, Lookup(d, k).value);
  }

  lemma KeysAppend<K, V>(a: seq<(K, V)>, b: seq<(K, V)>)
    ensures Keys(a + b) == Keys(a) + Keys(b)
  {
  }

  /** Rearranging the entries rearranges the keys. */
  lemma {:induction false} KeysRearranged<K, V>(a: seq<(K, V)>, b: seq<(K, V)>)
    requires multiset(a) == multiset(b)
    ensures multiset(Keys(a)) == multiset(Keys(b))
    decreases |a|
  {
    assert |a| == |multiset(a)| == |multiset(b)| == |b|;
    if |a| > 0 {
      var x := a[0];
      assert x in multiset(b);
      var i :| 0 <= i < |b| && b[i] == x;
      var rest := b[..i] + b[i + 1..];
      assert b == (b[..i] + [x]) + b[i + 1..];
      assert a == [x] + a[1..];
      assert multiset(b) == multiset(b[..i] + [x]) + multiset(b[i + 1..]);
      assert multiset(b[..i] + [x]) == multiset(b[..i]) + multiset{x};
      assert multiset(rest) == multiset(b[..i]) + multiset(b[i + 1..]);
      assert multiset(a) == multiset{x} + multiset(a[1..]);
      assert multiset(a[1..]) == multiset(a) - multiset{x};
      assert multiset(rest) == multiset(b) - multiset{x};
      KeysRearranged(a[1..], rest);
      KeysAppend(b[..i] + [x], b[i + 1..]);
      KeysAppend(b[..i], [x]);
      KeysAppend(b[..i], b[i + 1..]);
      KeysAppend([x], a[1..]);
    }
  }

  /** Two dictionaries holding the same entries answer every lookup alike,
      whatever order they iterate in. */
  lemma LookupRearranged<K, V>(a: seq<(K, V)>, b: seq<(K, V)>, k: K)
    requires DistinctKeys(a) && DistinctKeys(b)
    requires multiset(a) == multiset(b)
    ensures Lookup(a, k) == Lookup(b, k)
  {
    var la, lb := Lookup(a, k), Lookup(b, k);
    if lb.Some? {
      assert (k, lb.value) in multiset(a);
      LookupFindsEntry(a, k, lb.value);
    }
    if la.Some? {
      assert (k, la.value) in multiset(b);
      LookupFindsEntry(b, k, la.value);
    }
  }
}

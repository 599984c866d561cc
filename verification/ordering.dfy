/** Sorting a sequence by a caller-supplied order, as Swift's `sorted()` and
    `sorted(by:)` do, and the fact that makes sorting a canonicalisation:
    under a strict total order there is exactly one sorted arrangement of a
    given multiset of elements. */
module Ordering {

  /** `less` is a strict total order on the elements of `s`. */
  ghost predicate StrictTotalOn<T>(less: (T, T) -> bool, s: seq<T>) {
    && (forall x :: x in s ==> !less(x, x))
    && (forall x, y, z :: x in s && y in s && z in s && less(x, y) && less(y, z) ==> less(x, z))
    && (forall x, y :: x in s && y in s && x != y ==> less(x, y) || less(y, x))
  }

  /** No element of `s` is smaller than one to its left. */
  ghost predicate SortedBy<T>(s: seq<T>, less: (T, T) -> bool) {
    forall i, j :: 0 <= i < j < |s| ==> !less(s[j], s[i])
  }

  /** No element occurs twice. */
  ghost predicate NoDuplicates<T>(s: seq<T>) {
    forall i, j :: 0 <= i < j < |s| ==> s[i] != s[j]
  }

  /** Inserts `x` in front of the first element that is not smaller than it. */
  function Insert<T>(x: T, s: seq<T>, less: (T, T) -> bool): (r: seq<T>)
    ensures multiset(r) == multiset(s) + multiset{x}
    ensures |r| == |s| + 1
    decreases |s|
  {
    if |s| == 0 then [x]
    else
      assert s == [s[0]] + s[1..];
      if less(s[0], x) then [s[0]] + Insert(x, s[1..], less)
      else [x] + s
  }

  /** Insertion sort: a rearrangement of `s` (sortedness is `SortIsSorted`). */
  function Sort<T>(s: seq<T>, less: (T, T) -> bool): (r: seq<T>)
    ensures multiset(r) == multiset(s)
    ensures |r| == |s|
    decreases |s|
  {
    if |s| == 0 then []
    else
      assert s == [s[0]] + s[1..];
      Insert(s[0], Sort(s[1..], less), less)
  }

  lemma SameMembers<T>(a: seq<T>, b: seq<T>)
    requires multiset(a) == multiset(b)
    ensures forall x :: x in a <==> x in b
  {
    forall x
      ensures x in a <==> x in b
    {
      assert x in a <==> x in multiset(a);
      assert x in b <==> x in multiset(b);
    }
  }

  /** A strict total order on some elements is one on any rearrangement or
      part of them. */
  lemma StrictTotalOnSub<T>(less: (T, T) -> bool, s: seq<T>, t: seq<T>)
    requires StrictTotalOn(less, s)
    requires multiset(t) <= multiset(s)
    ensures StrictTotalOn(less, t)
  {
    forall x | x in t
      ensures x in s
    {
      assert x in multiset(t);
    }
  }

  /** Inserting in front: `x` is not larger than any element of `s`. */
  lemma InsertInFrontIsSorted<T>(x: T, s: seq<T>, less: (T, T) -> bool)
    requires SortedBy(s, less)
    requires StrictTotalOn(less, [x] + s)
    requires |s| > 0 && !less(s[0], x)
    ensures SortedBy([x] + s, less)
  {
    assert s[0] in [x] + s && x in [x] + s;
    forall k | 0 <= k < |s|
      ensures !less(s[k], x)
    {
      assert s[k] in [x] + s;
      if s[k] != s[0] {
        assert !less(s[k], s[0]);
        assert less(s[0], s[k]);
      }
    }
    var r := [x] + s;
    forall i, j | 0 <= i < j < |r|
      ensures !less(r[j], r[i])
    {
      assert r[j] == s[j - 1];
      if i > 0 {
        assert r[i] == s[i - 1];
      }
    }
  }

  /** An element no larger than any element of an ascending sequence can
      be put in front of it. */
  lemma ConsIsSorted<T>(y: T, r: seq<T>, less: (T, T) -> bool)
    requires SortedBy(r, less)
    requires forall k :: 0 <= k < |r| ==> !less(r[k], y)
    ensures SortedBy([y] + r, less)
  {
    var t := [y] + r;
    forall i, j | 0 <= i < j < |t|
      ensures !less(t[j], t[i])
    {
      assert t[j] == r[j - 1];
      if i > 0 {
        assert t[i] == r[i - 1];
      }
    }
  }

  lemma InsertMembers<T>(x: T, t: seq<T>, less: (T, T) -> bool, k: nat)
    requires k < |Insert(x, t, less)|
    ensures Insert(x, t, less)[k] == x || Insert(x, t, less)[k] in t
  {
    var r := Insert(x, t, less);
    assert r[k] in multiset(r);
    assert r[k] == x || r[k] in multiset(t);
  }

  /** Inserting past the head: the head stays first. */
  lemma InsertPastHeadIsSorted<T>(x: T, s: seq<T>, less: (T, T) -> bool)
    requires SortedBy(s, less)
    requires |s| > 0 && !less(x, s[0])
    requires SortedBy(Insert(x, s[1..], less), less)
    ensures SortedBy([s[0]] + Insert(x, s[1..], less), less)
  {
    var t := s[1..];
    var rest := Insert(x, t, less);
    forall k | 0 <= k < |rest|
      ensures !less(rest[k], s[0])
    {
      InsertMembers(x, t, less, k);
      if rest[k] != x {
        var j :| 0 <= j < |t| && t[j] == rest[k];
        assert s[j + 1] == rest[k];
      }
    }
    ConsIsSorted(s[0], rest, less);
  }

  lemma {:induction false} InsertIsSorted<T>(x: T, s: seq<T>, less: (T, T) -> bool)
    requires SortedBy(s, less)
    requires StrictTotalOn(less, [x] + s)
    ensures SortedBy(Insert(x, s, less), less)
    decreases |s|
  {
    if |s| > 0 {
      if less(s[0], x) {
        assert [x] + s == [x] + [s[0]] + s[1..];
        StrictTotalOnSub(less, [x] + s, [x] + s[1..]);
        InsertIsSorted(x, s[1..], less);
        assert s[0] in [x] + s && x in [x] + s;
        assert !less(x, s[0]);
        InsertPastHeadIsSorted(x, s, less);
      } else {
        InsertInFrontIsSorted(x, s, less);
      }
    }
  }

  /** Under a strict total order `Sort` returns an ascending sequence. */
  lemma {:induction false} SortIsSorted<T>(s: seq<T>, less: (T, T) -> bool)
    requires StrictTotalOn(less, s)
    ensures SortedBy(Sort(s, less), less)
    decreases |s|
  {
    if |s| > 0 {
      var t := Sort(s[1..], less);
      assert s == [s[0]] + s[1..];
      StrictTotalOnSub(less, s, s[1..]);
      SortIsSorted(s[1..], less);
      StrictTotalOnSub(less, s, [s[0]] + t);
      InsertIsSorted(s[0], t, less);
    }
  }

  /** Two ascending arrangements of the same elements start alike. */
  lemma SortedHeadsEqual<T>(a: seq<T>, b: seq<T>, less: (T, T) -> bool)
    requires multiset(a) == multiset(b) && |a| > 0
    requires SortedBy(a, less) && SortedBy(b, less)
    requires StrictTotalOn(less, a)
    ensures |b| > 0 && a[0] == b[0]
  {
    SameMembers(a, b);
    assert a[0] in b && b[0] in a;
    var k :| 0 <= k < |b| && b[k] == a[0];
    var m :| 0 <= m < |a| && a[m] == b[0];
    assert k == 0 || !less(b[k], b[0]);
    assert m == 0 || !less(a[m], a[0]);
  }

  /** Two ascending arrangements of the same elements are equal. */
  lemma {:induction false} SortedUnique<T>(a: seq<T>, b: seq<T>, less: (T, T) -> bool)
    requires multiset(a) == multiset(b)
    requires SortedBy(a, less) && SortedBy(b, less)
    requires StrictTotalOn(less, a)
    ensures a == b
    decreases |a|
  {
    assert |a| == |multiset(a)| == |multiset(b)| == |b|;
    if |a| > 0 {
      SortedHeadsEqual(a, b, less);
      assert a == [a[0]] + a[1..] && b == [b[0]] + b[1..];
      assert multiset(a) == multiset{a[0]} + multiset(a[1..]);
      assert multiset(b) == multiset{a[0]} + multiset(b[1..]);
      StrictTotalOnSub(less, a, a[1..]);
      SortedUnique(a[1..], b[1..], less);
    }
  }

  /** Sorting forgets the order it was given: rearrangements of one another
      sort to the same sequence. */
  lemma {:induction false} SortCanonical<T>(a: seq<T>, b: seq<T>, less: (T, T) -> bool)
    requires multiset(a) == multiset(b)
    requires StrictTotalOn(less, a)
    ensures Sort(a, less) == Sort(b, less)
  {
    StrictTotalOnSub(less, a, b);
    SortIsSorted(a, less);
    SortIsSorted(b, less);
    StrictTotalOnSub(less, a, Sort(a, less));
    SortedUnique(Sort(a, less), Sort(b, less), less);
  }

  /** `Sort` is the one ascending arrangement: any ascending rearrangement
      of `s` is what `Sort` returns. */
  lemma SortIsTheSortedPermutation<T>(s: seq<T>, t: seq<T>, less: (T, T) -> bool)
    requires multiset(t) == multiset(s)
    requires SortedBy(t, less)
    requires StrictTotalOn(less, s)
    ensures Sort(s, less) == t
  {
    SortIsSorted(s, less);
    StrictTotalOnSub(less, s, Sort(s, less));
    SortedUnique(Sort(s, less), t, less);
  }

  lemma {:induction false} InsertKeepsDistinct<T>(x: T, s: seq<T>, less: (T, T) -> bool)
    requires NoDuplicates(s) && x !in s
    ensures NoDuplicates(Insert(x, s, less))
    decreases |s|
  {
    if |s| > 0 && less(s[0], x) {
      var t := s[1..];
      InsertKeepsDistinct(x, t, less);
      var rest := Insert(x, t, less);
      forall k | 0 <= k < |rest|
        ensures rest[k] != s[0]
      {
        assert rest[k] in multiset(rest);
        if rest[k] != x {
          assert rest[k] in multiset(t);
        }
      }
    }
  }

  /** Sorting a sequence without repeats yields one without repeats. */
  lemma {:induction false} SortKeepsDistinct<T>(s: seq<T>, less: (T, T) -> bool)
    requires NoDuplicates(s)
    ensures NoDuplicates(Sort(s, less))
    decreases |s|
  {
    if |s| > 0 {
      SortKeepsDistinct(s[1..], less);
      assert s[0] !in multiset(s[1..]);
      InsertKeepsDistinct(s[0], Sort(s[1..], less), less);
    }
  }

  /** Without repeats, ascending is strictly ascending. */
  lemma StrictlyAscending<T>(s: seq<T>, less: (T, T) -> bool)
    requires SortedBy(s, less) && NoDuplicates(s) && StrictTotalOn(less, s)
    ensures forall i, j :: 0 <= i < j < |s| ==> less(s[i], s[j])
  {
  }
}

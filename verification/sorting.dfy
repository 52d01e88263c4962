/** Python's `sorted(xs, key=key, reverse=True)`: a stable sort into
    non-increasing key order.  Stability means elements with equal keys keep
    their input order, which the sort guarantees even with `reverse=True`.
    Written as insertion sort, processing the input left to right. */
module Sorting {

  ghost predicate NonIncreasing<T>(s: seq<T>, key: T -> real) {
    forall i, j :: 0 <= i < j < |s| ==> key(s[i]) >= key(s[j])
  }

  /** The elements of `s` whose key is exactly `k`, in their order in `s`. */
  function WithKey<T>(s: seq<T>, key: T -> real, k: real): seq<T> {
    if s == [] then []
    else (if key(s[0]) == k then [s[0]] else []) + WithKey(s[1..], key, k)
  }

  /** Put `x` into `s` after every leading element whose key is at least
      `key(x)`. */
  function Insert<T>(s: seq<T>, x: T, key: T -> real): (r: seq<T>)
    ensures |r| == |s| + 1
  {
    if s == [] then [x]
    else if key(s[0]) >= key(x) then [s[0]] + Insert(s[1..], x, key)
    else [x] + s
  }

  ghost predicate AllAtMost<T>(s: seq<T>, key: T -> real, b: real) {
    forall j :: 0 <= j < |s| ==> key(s[j]) <= b
  }

  lemma ConsSorted<T>(h: T, t: seq<T>, key: T -> real)
    requires NonIncreasing(t, key) && AllAtMost(t, key, key(h))
    ensures NonIncreasing([h] + t, key)
  {
    var s := [h] + t;
    forall i, j | 0 <= i < j < |s|
      ensures key(s[i]) >= key(s[j])
    {
      assert s[j] == t[j - 1];
      if i > 0 {
        assert s[i] == t[i - 1];
      }
    }
  }

  lemma {:induction false} InsertAtMost<T>(s: seq<T>, x: T, key: T -> real, b: real)
    requires AllAtMost(s, key, b) && key(x) <= b
    ensures AllAtMost(Insert(s, x, key), key, b)
  {
    if s != [] && key(s[0]) >= key(x) {
      InsertAtMost(s[1..], x, key, b);
      var r := Insert(s, x, key);
      assert r[1..] == Insert(s[1..], x, key);
      assert forall j :: 1 <= j < |r| ==> r[j] == r[1..][j - 1];
    }
  }

  lemma {:induction false} InsertSorted<T>(s: seq<T>, x: T, key: T -> real)
    requires NonIncreasing(s, key)
    ensures NonIncreasing(Insert(s, x, key), key)
  {
    if s == [] {
    } else if key(s[0]) >= key(x) {
      InsertSorted(s[1..], x, key);
      InsertAtMost(s[1..], x, key, key(s[0]));
      ConsSorted(s[0], Insert(s[1..], x, key), key);
    } else {
      assert s == [s[0]] + s[1..];
      ConsSorted(x, s, key);
    }
  }

  lemma {:induction false} InsertMultiset<T>(s: seq<T>, x: T, key: T -> real)
    ensures multiset(Insert(s, x, key)) == multiset(s) + multiset{x}
  {
    if s != [] && key(s[0]) >= key(x) {
      InsertMultiset(s[1..], x, key);
      assert s == [s[0]] + s[1..];
    }
  }

  /** `sorted(xs, key=key, reverse=True)`.  What it promises beyond the
      length is stated by `SortDescSorts`, so that the sort's order and
      permutation facts are brought in only where a proof needs them. */
  function SortDesc<T>(xs: seq<T>, key: T -> real): (r: seq<T>)
    ensures |r| == |xs|
  {
    if xs == [] then []
    else Insert(SortDesc(xs[..|xs| - 1], key), xs[|xs| - 1], key)
  }

  /** The result is in non-increasing key order and is a permutation of the
      input. */
  lemma {:induction false} SortDescSorts<T>(xs: seq<T>, key: T -> real)
    ensures NonIncreasing(SortDesc(xs, key), key)
    ensures multiset(SortDesc(xs, key)) == multiset(xs)
  {
    if xs != [] {
      var init, last := xs[..|xs| - 1], xs[|xs| - 1];
      SortDescSorts(init, key);
      InsertSorted(SortDesc(init, key), last, key);
      InsertMultiset(SortDesc(init, key), last, key);
      assert xs == init + [last];
    }
  }

  lemma {:induction false} WithKeyAppend<T>(a: seq<T>, b: seq<T>, key: T -> real, k: real)
    ensures WithKey(a + b, key, k) == WithKey(a, key, k) + WithKey(b, key, k)
  {
    if a == [] {
      assert a + b == b;
    } else {
      var h := if key(a[0]) == k then [a[0]] else [];
      assert (a + b)[0] == a[0] && (a + b)[1..] == a[1..] + b;
      assert WithKey(a + b, key, k) == h + WithKey(a[1..] + b, key, k);
      WithKeyAppend(a[1..], b, key, k);
      assert WithKey(a, key, k) == h + WithKey(a[1..], key, k);
    }
  }

  lemma {:induction false} WithKeyNone<T>(s: seq<T>, key: T -> real, k: real)
    requires forall j :: 0 <= j < |s| ==> key(s[j]) < k
    ensures WithKey(s, key, k) == []
  {
    if s != [] {
      WithKeyNone(s[1..], key, k);
    }
  }

  lemma TailNonIncreasing<T>(s: seq<T>, key: T -> real)
    requires NonIncreasing(s, key) && s != []
    ensures NonIncreasing(s[1..], key)
  {
    forall i, j | 0 <= i < j < |s| - 1
      ensures key(s[1..][i]) >= key(s[1..][j])
    {
      assert s[1..][i] == s[i + 1] && s[1..][j] == s[j + 1];
    }
  }

  /** An element that goes in front of every other one is the only one with
      its key that comes before them. */
  lemma InsertFrontWithKey<T>(s: seq<T>, x: T, key: T -> real, k: real)
    requires NonIncreasing(s, key) && s != [] && key(s[0]) < key(x)
    ensures WithKey(Insert(s, x, key), key, k)
         == WithKey(s, key, k) + (if key(x) == k then [x] else [])
  {
    var r := Insert(s, x, key);
    var tail := if key(x) == k then [x] else [];
    assert r[0] == x && r[1..] == s;
    assert WithKey(r, key, k) == tail + WithKey(s, key, k);
    if key(x) == k {
      assert forall j :: 0 <= j < |s| ==> key(s[j]) <= key(s[0]);
      WithKeyNone(s, key, k);
    }
  }

  lemma {:induction false} InsertWithKey<T>(s: seq<T>, x: T, key: T -> real, k: real)
    requires NonIncreasing(s, key)
    ensures WithKey(Insert(s, x, key), key, k)
         == WithKey(s, key, k) + (if key(x) == k then [x] else [])
  {
    var tail := if key(x) == k then [x] else [];
    if s == [] {
      assert WithKey([x], key, k) == tail + WithKey([x][1..], key, k);
    } else if key(s[0]) >= key(x) {
      var r := Insert(s, x, key);
      var h := if key(s[0]) == k then [s[0]] else [];
      assert r[0] == s[0] && r[1..] == Insert(s[1..], x, key);
      TailNonIncreasing(s, key);
      InsertWithKey(s[1..], x, key, k);
      var w := WithKey(s[1..], key, k);
      assert WithKey(r, key, k) == h + (w + tail);
      assert WithKey(s, key, k) == h + w;
      assert h + (w + tail) == (h + w) + tail;
    } else {
      InsertFrontWithKey(s, x, key, k);
    }
  }

  /** Stability: for every key, the elements carrying it appear in the output
      in exactly their input order. */
  lemma {:induction false} SortDescStable<T>(xs: seq<T>, key: T -> real, k: real)
    ensures WithKey(SortDesc(xs, key), key, k) == WithKey(xs, key, k)
  {
    if xs != [] {
      var init, last := xs[..|xs| - 1], xs[|xs| - 1];
      var sorted := SortDesc(init, key);
      assert SortDesc(xs, key) == Insert(sorted, last, key);
      SortDescStable(init, key, k);
      assert NonIncreasing(sorted, key) by {
        SortDescSorts(init, key);
      }
      InsertWithKey(sorted, last, key, k);
      assert xs == init + [last];
      WithKeyAppend(init, [last], key, k);
      WithKeySingle(last, key, k);
    }
  }

  lemma WithKeySingle<T>(x: T, key: T -> real, k: real)
    ensures WithKey([x], key, k) == (if key(x) == k then [x] else [])
  {
    assert [x][1..] == [];
  }

  /** The identity key, for sorting numbers by their own value. */
  function Id(x: real): real {
    x
  }

  lemma HeadIsLargest(s: seq<real>, x: real)
    requires NonIncreasing(s, Id) && x in s
    ensures x <= s[0]
  {
    var j :| 0 <= j < |s| && s[j] == x;
    if j > 0 {
      assert Id(s[0]) >= Id(s[j]);
    }
  }

  lemma RemoveHead(s: seq<real>)
    requires s != []
    ensures multiset(s) == multiset{s[0]} + multiset(s[1..])
  {
    assert s == [s[0]] + s[1..];
  }

  /** Two non-increasing sequences with the same elements start alike and
      continue with the same elements. */
  lemma HeadsEqual(a: seq<real>, b: seq<real>)
    requires NonIncreasing(a, Id) && NonIncreasing(b, Id) && multiset(a) == multiset(b)
    requires a != []
    ensures b != [] && a[0] == b[0] && multiset(a[1..]) == multiset(b[1..])
  {
    assert |a| == |multiset(a)| == |multiset(b)| == |b|;
    assert a[0] in multiset(a) && b[0] in multiset(b);
    HeadIsLargest(b, a[0]);
    HeadIsLargest(a, b[0]);
    RemoveHead(a);
    RemoveHead(b);
    assert multiset(a[1..]) == multiset(a) - multiset{a[0]};
    assert multiset(b[1..]) == multiset(b) - multiset{b[0]};
  }

  /** Numbers in non-increasing order are determined by their multiset: the
      descending sort of a list does not depend on the list's order. */
  lemma {:induction false} SortedUnique(a: seq<real>, b: seq<real>)
    requires NonIncreasing(a, Id) && NonIncreasing(b, Id) && multiset(a) == multiset(b)
    ensures a == b
  {
    if a == [] {
      assert |b| == |multiset(b)| == 0;
    } else {
      HeadsEqual(a, b);
      TailNonIncreasing(a, Id);
      TailNonIncreasing(b, Id);
      SortedUnique(a[1..], b[1..]);
      assert a == [a[0]] + a[1..] && b == [b[0]] + b[1..];
    }
  }
}

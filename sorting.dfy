/** Stable sort by an integer key, largest key first: what Python's
    `list.sort(key=..., reverse=True)` promises (reverse order, ties kept in
    their original order). `SortDesc` is the reference definition, an
    insertion sort on sequences; `SortInPlace` sorts an array in place and is
    proved to produce exactly `SortDesc` of the array's old contents. */
module Sorting {

  /** Keys never increase from left to right. */
  ghost predicate NonIncreasing<T>(s: seq<T>, key: T -> int) {
    forall i, j :: 0 <= i < j < |s| ==> key(s[i]) >= key(s[j])
  }

  /** Places `x` after every element of `s` whose key is at least `key(x)`. */
  function Insert<T>(x: T, s: seq<T>, key: T -> int): seq<T> {
    if s == [] then [x]
    else if key(s[0]) >= key(x) then [s[0]] + Insert(x, s[1..], key)
    else [x] + s
  }

  /** Inserts the elements of `s` one after the other, left to right. */
  function SortDesc<T>(s: seq<T>, key: T -> int): seq<T> {
    if s == [] then [] else Insert(s[|s| - 1], SortDesc(s[..|s| - 1], key), key)
  }

  /** The elements of `s` whose key is `v`, in their order in `s`. */
  function WithKey<T>(s: seq<T>, key: T -> int, v: int): seq<T> {
    if s == [] then []
    else (if key(s[0]) == v then [s[0]] else []) + WithKey(s[1..], key, v)
  }

  lemma {:induction false} WithKeyAppend<T>(a: seq<T>, b: seq<T>, key: T -> int, v: int)
    ensures WithKey(a + b, key, v) == WithKey(a, key, v) + WithKey(b, key, v)
  {
    if a == [] {
      assert a + b == b;
    } else {
      var head := if key(a[0]) == v then [a[0]] else [];
      assert (a + b)[0] == a[0];
      assert (a + b)[1..] == a[1..] + b;
      WithKeyAppend(a[1..], b, key, v);
      calc {
        WithKey(a + b, key, v);
        head + WithKey(a[1..] + b, key, v);
        head + (WithKey(a[1..], key, v) + WithKey(b, key, v));
        (head + WithKey(a[1..], key, v)) + WithKey(b, key, v);
        WithKey(a, key, v) + WithKey(b, key, v);
      }
    }
  }

  /** Filtering by key commutes with taking a prefix: the ties kept in a
      prefix are the first ones of the whole sequence. */
  lemma WithKeyPrefix<T>(s: seq<T>, n: nat, key: T -> int, v: int)
    requires n <= |s|
    ensures WithKey(s[..n], key, v) <= WithKey(s, key, v)
  {
    assert s == s[..n] + s[n..];
    WithKeyAppend(s[..n], s[n..], key, v);
  }

  lemma {:induction false} WithKeyNone<T>(s: seq<T>, key: T -> int, v: int)
    requires forall i :: 0 <= i < |s| ==> key(s[i]) < v
    ensures WithKey(s, key, v) == []
  {
    if s != [] {
      WithKeyNone(s[1..], key, v);
    }
  }

  lemma {:induction false} InsertPermutes<T>(x: T, s: seq<T>, key: T -> int)
    ensures multiset(Insert(x, s, key)) == multiset(s) + multiset{x}
  {
    if s != [] && key(s[0]) >= key(x) {
      InsertPermutes(x, s[1..], key);
      assert s == [s[0]] + s[1..];
    }
  }

  lemma {:induction false} InsertSorted<T>(x: T, s: seq<T>, key: T -> int)
    requires NonIncreasing(s, key)
    ensures NonIncreasing(Insert(x, s, key), key)
  {
    if s != [] && key(s[0]) >= key(x) {
      var rest := Insert(x, s[1..], key);
      InsertSorted(x, s[1..], key);
      InsertPermutes(x, s[1..], key);
      forall k | 0 <= k < |rest|
        ensures key(s[0]) >= key(rest[k])
      {
        assert rest[k] in multiset(rest);
        assert rest[k] == x || rest[k] in multiset(s[1..]);
      }
    }
  }

  /** Inserting `x` appends it to the run of elements that share its key. */
  lemma {:induction false} InsertWithKey<T>(x: T, s: seq<T>, key: T -> int, v: int)
    requires NonIncreasing(s, key)
    ensures WithKey(Insert(x, s, key), key, v)
         == WithKey(s, key, v) + (if key(x) == v then [x] else [])
  {
    var tail := if key(x) == v then [x] else [];
    if s == [] {
      assert WithKey([x], key, v) == tail + WithKey([x][1..], key, v);
      assert [x][1..] == [];
    } else if key(s[0]) >= key(x) {
      var head := if key(s[0]) == v then [s[0]] else [];
      var rest := Insert(x, s[1..], key);
      InsertWithKey(x, s[1..], key, v);
      assert ([s[0]] + rest)[0] == s[0];
      assert ([s[0]] + rest)[1..] == rest;
      calc {
        WithKey(Insert(x, s, key), key, v);
        WithKey([s[0]] + rest, key, v);
        head + WithKey(rest, key, v);
        head + (WithKey(s[1..], key, v) + tail);
        (head + WithKey(s[1..], key, v)) + tail;
        WithKey(s, key, v) + tail;
      }
    } else {
      assert ([x] + s)[0] == x;
      assert ([x] + s)[1..] == s;
      assert WithKey([x] + s, key, v) == tail + WithKey(s, key, v);
      if key(x) == v {
        assert forall i :: 0 <= i < |s| ==> key(s[i]) <= key(s[0]);
        WithKeyNone(s, key, v);
      }
    }
  }

  lemma {:induction false} SortDescSorted<T>(s: seq<T>, key: T -> int)
    ensures NonIncreasing(SortDesc(s, key), key)
  {
    if s != [] {
      SortDescSorted(s[..|s| - 1], key);
      InsertSorted(s[|s| - 1], SortDesc(s[..|s| - 1], key), key);
    }
  }

  lemma {:induction false} SortDescPermutes<T>(s: seq<T>, key: T -> int)
    ensures multiset(SortDesc(s, key)) == multiset(s)
    ensures |SortDesc(s, key)| == |s|
  {
    if s != [] {
      SortDescPermutes(s[..|s| - 1], key);
      InsertPermutes(s[|s| - 1], SortDesc(s[..|s| - 1], key), key);
      assert s == s[..|s| - 1] + [s[|s| - 1]];
    }
    assert |multiset(SortDesc(s, key))| == |multiset(s)|;
  }

  /** Stability: for every key, the elements carrying it keep their order. */
  lemma {:induction false} SortDescStable<T>(s: seq<T>, key: T -> int, v: int)
    ensures WithKey(SortDesc(s, key), key, v) == WithKey(s, key, v)
  {
    if s != [] {
      var init, last := s[..|s| - 1], s[|s| - 1];
      var tail := if key(last) == v then [last] else [];
      SortDescStable(init, key, v);
      SortDescSorted(init, key);
      InsertWithKey(last, SortDesc(init, key), key, v);
      assert s == init + [last];
      WithKeyAppend(init, [last], key, v);
      assert WithKey([last], key, v) == tail + WithKey([last][1..], key, v);
      assert [last][1..] == [];
      calc {
        WithKey(SortDesc(s, key), key, v);
        WithKey(Insert(last, SortDesc(init, key), key), key, v);
        WithKey(SortDesc(init, key), key, v) + tail;
        WithKey(init, key, v) + tail;
        WithKey(init, key, v) + WithKey([last], key, v);
        WithKey(s, key, v);
      }
    }
  }

  /** `Insert` written out as a split point: everything before `k` has a key
      at least `key(x)`, everything from `k` on a smaller one. */
  lemma {:induction false} InsertAt<T>(x: T, s: seq<T>, k: nat, key: T -> int)
    requires k <= |s|
    requires forall i :: 0 <= i < k ==> key(s[i]) >= key(x)
    requires forall i :: k <= i < |s| ==> key(s[i]) < key(x)
    ensures Insert(x, s, key) == s[..k] + [x] + s[k..]
  {
    if s != [] && k > 0 {
      InsertAt(x, s[1..], k - 1, key);
      assert s[1..][..k - 1] == s[1..k];
      assert s[1..][k - 1..] == s[k..];
    }
  }

  /** One step of the insertion sort: with `a[..i]` already sorted, moves
      `a[i]` left past every element whose key is smaller than its own. */
  method InsertInPlace<T>(a: array<T>, i: nat, key: T -> int)
    requires i < a.Length
    requires NonIncreasing(a[..i], key)
    modifies a
    ensures a[..i + 1] == Insert(old(a[i]), old(a[..i]), key)
    ensures a[i + 1..] == old(a[i + 1..])
  {
    ghost var sorted := a[..i];
    var x := a[i];
    var j := i;
    while j > 0 && key(a[j - 1]) < key(x)
      invariant 0 <= j <= i
      invariant forall m :: 0 <= m < j ==> a[m] == sorted[m]
      invariant forall m :: j < m <= i ==> a[m] == sorted[m - 1]
      invariant forall m :: j <= m < i ==> key(sorted[m]) < key(x)
      invariant forall m :: i < m < a.Length ==> a[m] == old(a[m])
    {
      a[j] := a[j - 1];
      j := j - 1;
    }
    a[j] := x;
    InsertedAt(x, sorted, j, a[..i + 1], key);
    assert a[i + 1..] == old(a[i + 1..]);
  }

  /** A sequence laid out as `sorted` with `x` dropped in at `j`, behind every
      element with a key at least `key(x)`, is `Insert(x, sorted)`. */
  lemma InsertedAt<T>(x: T, sorted: seq<T>, j: nat, r: seq<T>, key: T -> int)
    requires NonIncreasing(sorted, key)
    requires j <= |sorted| && |r| == |sorted| + 1
    requires forall m :: 0 <= m < j ==> r[m] == sorted[m]
    requires r[j] == x
    requires forall m :: j < m <= |sorted| ==> r[m] == sorted[m - 1]
    requires j > 0 ==> key(sorted[j - 1]) >= key(x)
    requires forall m :: j <= m < |sorted| ==> key(sorted[m]) < key(x)
    ensures r == Insert(x, sorted, key)
  {
    assert forall m :: 0 <= m < j ==> key(sorted[m]) >= key(x) by {
      if j > 0 {
        assert forall m :: 0 <= m < j ==> key(sorted[m]) >= key(sorted[j - 1]);
      }
    }
    InsertAt(x, sorted, j, key);
    assert r[..j] == sorted[..j];
    assert r[j + 1..] == sorted[j..];
    SplitAt(r, j);
  }

  lemma SplitAt<T>(r: seq<T>, j: nat)
    requires j < |r|
    ensures r == r[..j] + [r[j]] + r[j + 1..]
  {
  }

  /** Insertion sort of `a` in place, as `list.sort(reverse=True)` does to
      the result list. */
  method SortInPlace<T>(a: array<T>, key: T -> int)
    modifies a
    ensures a[..] == SortDesc(old(a[..]), key)
  {
    ghost var orig := a[..];
    var i := 0;
    while i < a.Length
      invariant 0 <= i <= a.Length
      invariant a[..i] == SortDesc(orig[..i], key)
      invariant a[i..] == orig[i..]
    {
      SortDescSorted(orig[..i], key);
      InsertInPlace(a, i, key);
      assert orig[..i + 1][..i] == orig[..i];
      i := i + 1;
    }
    assert orig[..a.Length] == orig;
  }
}

/**
  Sorting by a numeric key, highest first, as `array.sort((a, b) => key(b) - key(a))`
  does it. `Array.prototype.sort` is stable (section 22.1.3.27 of ECMA-262
  2019): elements with equal keys keep their relative order. `SortDesc` is the
  specification, an insertion sort on sequences; `SortInPlace` sorts an array
  in place and is proved to produce exactly `SortDesc` of its old contents.
*/
module StableSort {

  /** Keys never increase from left to right. */
  predicate SortedDesc<T>(s: seq<T>, key: T -> real) {
    forall i, j :: 0 <= i < j < |s| ==> key(s[i]) >= key(s[j])
  }

  /** The elements of `s` whose key is `v`, in their order in `s`. */
  function WithKey<T>(s: seq<T>, key: T -> real, v: real): (r: seq<T>)
    ensures |r| <= |s|
  {
    if s == [] then []
    else WithKey(s[..|s| - 1], key, v) + (if key(s[|s| - 1]) == v then [s[|s| - 1]] else [])
  }

  /** `x` placed after every element of `s` whose key is at least its own. */
  function Insert<T>(x: T, s: seq<T>, key: T -> real): (r: seq<T>)
    ensures |r| == |s| + 1
  {
    if s == [] then [x]
    else if key(s[0]) >= key(x) then [s[0]] + Insert(x, s[1..], key)
    else [x] + s
  }

  /** `s` sorted by non-increasing key, equal keys in input order. */
  function SortDesc<T>(s: seq<T>, key: T -> real): (r: seq<T>)
    ensures |r| == |s|
  {
    if s == [] then [] else Insert(s[|s| - 1], SortDesc(s[..|s| - 1], key), key)
  }

  // ---------------------------------------------------------------------
  // Insertion.

  /** Where insertion puts `x` in a sorted sequence: before the first element with a smaller key. */
  lemma {:induction false} InsertAt<T>(x: T, s: seq<T>, key: T -> real, j: nat)
    requires j <= |s|
    requires forall k :: 0 <= k < j ==> key(s[k]) >= key(x)
    requires forall k :: j <= k < |s| ==> key(s[k]) < key(x)
    ensures Insert(x, s, key) == s[..j] + [x] + s[j..]
  {
    if s != [] {
      if j > 0 {
        InsertAt(x, s[1..], key, j - 1);
        assert s[..j] == [s[0]] + s[1..][..j - 1];
        assert s[j..] == s[1..][j - 1..];
      } else {
        assert s[0..] == s;
      }
    }
  }

  /** Inserting into a sorted sequence keeps it sorted. */
  lemma {:induction false} InsertSorted<T>(x: T, s: seq<T>, key: T -> real)
    requires SortedDesc(s, key)
    ensures SortedDesc(Insert(x, s, key), key)
  {
    if s != [] && key(s[0]) >= key(x) {
      InsertSorted(x, s[1..], key);
      var r := Insert(x, s, key);
      InsertElements(x, s[1..], key);
      forall i, j | 0 <= i < j < |r|
        ensures key(r[i]) >= key(r[j])
      {
        if i == 0 {
          assert r[j] in multiset(Insert(x, s[1..], key));
          assert r[j] == x || r[j] in multiset(s[1..]);
          if r[j] != x {
            var k :| 0 <= k < |s[1..]| && s[1..][k] == r[j];
            assert s[k + 1] == r[j];
          }
        }
      }
    }
  }

  /** Insertion adds exactly `x` to the multiset of elements. */
  lemma {:induction false} InsertElements<T>(x: T, s: seq<T>, key: T -> real)
    ensures multiset(Insert(x, s, key)) == multiset(s) + multiset{x}
  {
    if s != [] && key(s[0]) >= key(x) {
      InsertElements(x, s[1..], key);
      assert s == [s[0]] + s[1..];
    }
  }

  /** Insertion appends `x` to its key class and leaves the other key classes alone. */
  lemma {:induction false} InsertWithKey<T>(x: T, s: seq<T>, key: T -> real, v: real)
    requires SortedDesc(s, key)
    ensures WithKey(Insert(x, s, key), key, v) == WithKey(s, key, v) + (if key(x) == v then [x] else [])
  {
    var j := InsertionPoint(x, s, key);
    InsertWithKeyAt(x, s, key, v, j);
  }

  /** `InsertWithKey` once the insertion point `j` is known. */
  lemma InsertWithKeyAt<T>(x: T, s: seq<T>, key: T -> real, v: real, j: nat)
    requires j <= |s|
    requires forall k :: 0 <= k < j ==> key(s[k]) >= key(x)
    requires forall k :: j <= k < |s| ==> key(s[k]) < key(x)
    ensures WithKey(Insert(x, s, key), key, v) == WithKey(s, key, v) + (if key(x) == v then [x] else [])
  {
    InsertAt(x, s, key, j);
    var pre, post := s[..j], s[j..];
    assert s == pre + post;
    WithKeyAppend(pre + [x], post, key, v);
    WithKeyAppend(pre, [x], key, v);
    WithKeyAppend(pre, post, key, v);
    WithKeySingle(x, key, v);
    if key(x) == v {
      assert forall k :: 0 <= k < |post| ==> key(post[k]) < v;
      WithKeyNone(post, key, v);
    }
  }

  /** The key class of a single element. */
  lemma WithKeySingle<T>(x: T, key: T -> real, v: real)
    ensures WithKey([x], key, v) == if key(x) == v then [x] else []
  {
    assert [x][..0] == [];
  }

  /** The index at which insertion places `x` in a sorted sequence. */
  lemma {:induction false} InsertionPoint<T>(x: T, s: seq<T>, key: T -> real) returns (j: nat)
    requires SortedDesc(s, key)
    ensures j <= |s|
    ensures forall k :: 0 <= k < j ==> key(s[k]) >= key(x)
    ensures forall k :: j <= k < |s| ==> key(s[k]) < key(x)
  {
    j := 0;
    while j < |s| && key(s[j]) >= key(x)
      invariant j <= |s|
      invariant forall k :: 0 <= k < j ==> key(s[k]) >= key(x)
    {
      j := j + 1;
    }
  }

  /** Selecting a key class distributes over concatenation. */
  lemma {:induction false} WithKeyAppend<T>(a: seq<T>, b: seq<T>, key: T -> real, v: real)
    ensures WithKey(a + b, key, v) == WithKey(a, key, v) + WithKey(b, key, v)
    decreases |b|
  {
    if b == [] {
      assert a + b == a;
    } else {
      var b' := b[..|b| - 1];
      assert (a + b)[..|a + b| - 1] == a + b';
      WithKeyAppend(a, b', key, v);
    }
  }

  /** A sequence whose keys are all below `v` has nothing with key `v`. */
  lemma {:induction false} WithKeyNone<T>(s: seq<T>, key: T -> real, v: real)
    requires forall k :: 0 <= k < |s| ==> key(s[k]) < v
    ensures WithKey(s, key, v) == []
  {
    if s != [] {
      WithKeyNone(s[..|s| - 1], key, v);
    }
  }

  // ---------------------------------------------------------------------
  // What the sort promises.

  /** The output is sorted by non-increasing key. */
  lemma {:induction false} SortDescSorted<T>(s: seq<T>, key: T -> real)
    ensures SortedDesc(SortDesc(s, key), key)
  {
    if s != [] {
      SortDescSorted(s[..|s| - 1], key);
      InsertSorted(s[|s| - 1], SortDesc(s[..|s| - 1], key), key);
    }
  }

  /** The output is a permutation of the input. */
  lemma {:induction false} SortDescPermutation<T>(s: seq<T>, key: T -> real)
    ensures multiset(SortDesc(s, key)) == multiset(s)
  {
    if s != [] {
      SortDescPermutation(s[..|s| - 1], key);
      InsertElements(s[|s| - 1], SortDesc(s[..|s| - 1], key), key);
      assert s == s[..|s| - 1] + [s[|s| - 1]];
    }
  }

  /** The sort is stable: the elements of each key class come out in their input order. */
  lemma {:induction false} SortDescStable<T>(s: seq<T>, key: T -> real, v: real)
    ensures WithKey(SortDesc(s, key), key, v) == WithKey(s, key, v)
  {
    if s != [] {
      SortDescStable(s[..|s| - 1], key, v);
      SortDescSorted(s[..|s| - 1], key);
      InsertWithKey(s[|s| - 1], SortDesc(s[..|s| - 1], key), key, v);
    }
  }

  /** Input that already is sorted comes out unchanged. */
  lemma {:induction false} SortDescOfSorted<T>(s: seq<T>, key: T -> real)
    requires SortedDesc(s, key)
    ensures SortDesc(s, key) == s
  {
    if s != [] {
      var init := s[..|s| - 1];
      SortDescOfSorted(init, key);
      InsertAt(s[|s| - 1], init, key, |init|);
      assert init[..|init|] == init && init[|init|..] == [];
      assert s == init + [s[|s| - 1]];
    }
  }

  // ---------------------------------------------------------------------
  // In place.

  /** Moves `a[i]` left past the elements of the sorted prefix `a[..i]` whose key is smaller. */
  method InsertInPlace<T>(a: array<T>, i: nat, key: T -> real)
    requires i < a.Length
    requires SortedDesc(a[..i], key)
    modifies a
    ensures a[..i + 1] == Insert(old(a[i]), old(a[..i]), key)
    ensures a[i + 1..] == old(a[i + 1..])
  {
    ghost var sorted := a[..i];
    var x := a[i];
    var j := i;
    while j > 0 && key(a[j - 1]) < key(x)
      invariant 0 <= j <= i
      invariant forall k :: 0 <= k < j ==> a[k] == sorted[k]
      invariant forall k :: j < k <= i ==> a[k] == sorted[k - 1]
      invariant forall k :: i < k < a.Length ==> a[k] == old(a[k])
      invariant forall k :: j <= k < i ==> key(sorted[k]) < key(x)
    {
      a[j] := a[j - 1];
      j := j - 1;
    }
    a[j] := x;
    PlacedIsInsert(x, sorted, key, j, a[..i + 1]);
    assert a[i + 1..] == old(a[i + 1..]);
  }

  /** A sorted sequence with `x` placed just before its first element of smaller key is the insertion of `x`. */
  lemma PlacedIsInsert<T>(x: T, sorted: seq<T>, key: T -> real, j: nat, t: seq<T>)
    requires SortedDesc(sorted, key)
    requires j <= |sorted| && |t| == |sorted| + 1
    requires forall k :: 0 <= k < j ==> t[k] == sorted[k]
    requires t[j] == x
    requires forall k :: j < k < |t| ==> t[k] == sorted[k - 1]
    requires j == 0 || key(sorted[j - 1]) >= key(x)
    requires forall k :: j <= k < |sorted| ==> key(sorted[k]) < key(x)
    ensures t == Insert(x, sorted, key)
  {
    forall k | 0 <= k < j
      ensures key(sorted[k]) >= key(x)
    {
      assert key(sorted[k]) >= key(sorted[j - 1]);
    }
    InsertAt(x, sorted, key, j);
    Spliced(x, sorted, j, t);
  }

  /** `t` agrees with `sorted` around position `j`, where it holds `x`. */
  lemma Spliced<T>(x: T, sorted: seq<T>, j: nat, t: seq<T>)
    requires j <= |sorted| && |t| == |sorted| + 1
    requires forall k :: 0 <= k < j ==> t[k] == sorted[k]
    requires t[j] == x
    requires forall k :: j < k < |t| ==> t[k] == sorted[k - 1]
    ensures t == sorted[..j] + [x] + sorted[j..]
  {
    var r := sorted[..j] + [x] + sorted[j..];
    assert forall k :: 0 <= k < |t| ==> t[k] == r[k];
  }

  /** The source's in-place `sort`: an insertion sort on an array. */
  method SortInPlace<T>(a: array<T>, key: T -> real)
    modifies a
    ensures a[..] == SortDesc(old(a[..]), key)
  {
    ghost var input := a[..];
    var i := 0;
    while i < a.Length
      invariant 0 <= i <= a.Length
      invariant a[..i] == SortDesc(input[..i], key)
      invariant a[i..] == input[i..]
    {
      SortDescSorted(input[..i], key);
      assert a[i] == input[i];
      InsertInPlace(a, i, key);
      assert input[..i + 1][..i] == input[..i];
      assert a[i + 1..] == input[i + 1..];
      i := i + 1;
    }
    assert a[..] == a[..a.Length];
    assert input == input[..a.Length];
  }
}

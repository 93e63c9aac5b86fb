/**
 * Python's `sorted(xs, key=k, reverse=True)` and `xs.sort(key=k, reverse=True)`:
 * a stable sort into non-increasing key order (equal keys keep their original
 * order), followed by `[:n]` for the top-n boards.
 */
module Ranking {
  import opened Util

  ghost predicate SortedDesc<T>(s: seq<T>, key: T -> real)
  {
    forall i, j :: 0 <= i < j < |s| ==> key(s[i]) >= key(s[j])
  }

  /** The elements of `s` whose key is `v`, in their order in `s`. */
  function WithKey<T>(s: seq<T>, key: T -> real, v: real): seq<T>
  {
    if s == [] then [] else (if key(s[0]) == v then [s[0]] else []) + WithKey(s[1..], key, v)
  }

  /** Places `x` after every element whose key is at least its own. */
  function Insert<T>(x: T, s: seq<T>, key: T -> real): (r: seq<T>)
  {
    if s == [] then [x]
    else if key(s[0]) >= key(x) then [s[0]] + Insert(x, s[1..], key)
    else [x] + s
  }

  lemma {:induction false} InsertPermutes<T>(x: T, s: seq<T>, key: T -> real)
    ensures multiset(Insert(x, s, key)) == multiset(s) + multiset{x}
    ensures |Insert(x, s, key)| == |s| + 1
  {
    if s != [] {
      assert s == [s[0]] + s[1..];
      if key(s[0]) >= key(x) {
        InsertPermutes(x, s[1..], key);
      }
    }
  }

  /** The stable descending sort, as insertion of each element in turn. */
  function SortDesc<T>(s: seq<T>, key: T -> real): (r: seq<T>)
  {
    if s == [] then [] else Insert(s[|s| - 1], SortDesc(s[..|s| - 1], key), key)
  }

  /** `s[:n]`. */
  function Take<T>(s: seq<T>, n: nat): (r: seq<T>)
  {
    s[..Min(n, |s|)]
  }

  /** `sorted(s, key=key, reverse=True)[:n]`. */
  function Top<T>(s: seq<T>, key: T -> real, n: nat): seq<T>
  {
    Take(SortDesc(s, key), n)
  }

  // ---------------------------------------------------------------- lemmas

  lemma {:induction false} InsertSorted<T>(x: T, s: seq<T>, key: T -> real)
    requires SortedDesc(s, key)
    ensures SortedDesc(Insert(x, s, key), key)
  {
    if s != [] && key(s[0]) >= key(x) {
      SortedTail(s, key);
      InsertSorted(x, s[1..], key);
      InsertMembers(x, s[1..], key);
      var tail := Insert(x, s[1..], key);
      forall y | y in tail ensures key(y) <= key(s[0]) {
        if y != x {
          var k :| 0 <= k < |s[1..]| && s[1..][k] == y;
          assert s[k + 1] == y;
        }
      }
      SortedCons(s[0], tail, key);
    }
  }

  lemma SortedTail<T>(s: seq<T>, key: T -> real)
    requires s != [] && SortedDesc(s, key)
    ensures SortedDesc(s[1..], key)
  {
    forall i, j | 0 <= i < j < |s[1..]| ensures key(s[1..][i]) >= key(s[1..][j]) {
      assert s[1..][i] == s[i + 1] && s[1..][j] == s[j + 1];
    }
  }

  lemma SortedCons<T>(x: T, s: seq<T>, key: T -> real)
    requires SortedDesc(s, key)
    requires forall y :: y in s ==> key(y) <= key(x)
    ensures SortedDesc([x] + s, key)
  {
    var r := [x] + s;
    forall i, j | 0 <= i < j < |r| ensures key(r[i]) >= key(r[j]) {
      assert r[j] == s[j - 1];
      if i > 0 {
        assert r[i] == s[i - 1];
      }
    }
  }

  /** What the insertion holds is `x` and the elements of `s`. */
  lemma {:induction false} InsertMembers<T>(x: T, s: seq<T>, key: T -> real)
    ensures forall y :: y in Insert(x, s, key) ==> y == x || y in s
  {
    if s != [] && key(s[0]) >= key(x) {
      InsertMembers(x, s[1..], key);
      forall y | y in Insert(x, s, key) ensures y == x || y in s {
        if y != s[0] {
          assert y in Insert(x, s[1..], key);
        }
      }
    }
  }

  lemma {:induction false} WithKeyAppend<T>(a: seq<T>, b: seq<T>, key: T -> real, v: real)
    ensures WithKey(a + b, key, v) == WithKey(a, key, v) + WithKey(b, key, v)
  {
    if a == [] {
      assert a + b == b;
    } else {
      var ab := a + b;
      var head := if key(a[0]) == v then [a[0]] else [];
      assert ab[0] == a[0] && ab[1..] == a[1..] + b;
      assert WithKey(ab, key, v) == head + WithKey(a[1..] + b, key, v);
      WithKeyAppend(a[1..], b, key, v);
      assert WithKey(a, key, v) == head + WithKey(a[1..], key, v);
    }
  }

  lemma {:induction false} WithKeyNone<T>(s: seq<T>, key: T -> real, v: real)
    requires forall k :: 0 <= k < |s| ==> key(s[k]) < v
    ensures WithKey(s, key, v) == []
  {
    if s != [] {
      WithKeyNone(s[1..], key, v);
    }
  }

  /** Inserting `x` into a sorted list puts it last among the elements with its key. */
  lemma {:induction false} InsertWithKey<T>(x: T, s: seq<T>, key: T -> real, v: real)
    requires SortedDesc(s, key)
    ensures WithKey(Insert(x, s, key), key, v) == WithKey(s, key, v) + (if key(x) == v then [x] else [])
  {
    if s != [] {
      var r := Insert(x, s, key);
      if key(s[0]) >= key(x) {
        var tail := Insert(x, s[1..], key);
        SortedTail(s, key);
        InsertWithKey(x, s[1..], key, v);
        assert r == [s[0]] + tail;
        assert r[0] == s[0] && r[1..] == tail;
        assert WithKey(r, key, v) == (if key(s[0]) == v then [s[0]] else []) + WithKey(tail, key, v);
      } else {
        assert r == [x] + s;
        assert r[0] == x && r[1..] == s;
        assert WithKey(r, key, v) == (if key(x) == v then [x] else []) + WithKey(s, key, v);
        if key(x) == v {
          assert forall k :: 0 <= k < |s| ==> key(s[k]) <= key(s[0]);
          WithKeyNone(s, key, v);
        }
      }
    }
  }

  /** The sort is a stable descending sort: its output is ordered by non-increasing
      key, is a permutation of the input, and for every key lists the elements with
      that key in their input order. */
  lemma {:induction false} SortDescCorrect<T>(s: seq<T>, key: T -> real)
    ensures SortedDesc(SortDesc(s, key), key)
    ensures multiset(SortDesc(s, key)) == multiset(s)
    ensures |SortDesc(s, key)| == |s|
    ensures forall v :: WithKey(SortDesc(s, key), key, v) == WithKey(s, key, v)
  {
    if s != [] {
      var init, last := s[..|s| - 1], s[|s| - 1];
      assert s == init + [last];
      SortDescCorrect(init, key);
      InsertSorted(last, SortDesc(init, key), key);
      InsertPermutes(last, SortDesc(init, key), key);
      forall v ensures WithKey(SortDesc(s, key), key, v) == WithKey(s, key, v) {
        InsertWithKey(last, SortDesc(init, key), key, v);
        WithKeyAppend(init, [last], key, v);
      }
      assert |SortDesc(s, key)| == |multiset(SortDesc(s, key))|;
    }
  }

  /** The top-n selection: at most n elements (all of them when there are fewer), in
      non-increasing key order, drawn from the input without duplication, and no
      element left out has a larger key than any element kept. */
  lemma TopCorrect<T>(s: seq<T>, key: T -> real, n: nat)
    ensures var r := Top(s, key, n);
      && |r| == Min(n, |s|)
      && SortedDesc(r, key)
      && multiset(r) <= multiset(s)
      && forall x, y :: x in multiset(s) - multiset(r) && y in r ==> key(x) <= key(y)
  {
    SortDescCorrect(s, key);
    var t := SortDesc(s, key);
    var k := Min(n, |s|);
    var r, rest := t[..k], t[k..];
    assert t == r + rest;
    assert multiset(t) == multiset(r) + multiset(rest);
    SortedSplit(t, k, key);
    forall x, y | x in multiset(s) - multiset(r) && y in r ensures key(x) <= key(y) {
      assert multiset(rest)[x] > 0;
    }
  }

  /** A prefix of a sorted list is sorted and no later element outranks an element of it. */
  lemma SortedSplit<T>(t: seq<T>, k: nat, key: T -> real)
    requires k <= |t| && SortedDesc(t, key)
    ensures SortedDesc(t[..k], key)
    ensures forall x, y :: x in t[k..] && y in t[..k] ==> key(x) <= key(y)
  {
    var r, rest := t[..k], t[k..];
    forall i, j | 0 <= i < j < |r| ensures key(r[i]) >= key(r[j]) {
      assert r[i] == t[i] && r[j] == t[j];
    }
    forall x, y | x in rest && y in r ensures key(x) <= key(y) {
      var j :| 0 <= j < |rest| && rest[j] == x;
      var i :| 0 <= i < |r| && r[i] == y;
      assert t[k + j] == x && t[i] == y;
    }
  }

  /** Dropping elements keeps a list ordered. */
  lemma {:induction false} FilterSorted<T>(s: seq<T>, key: T -> real, keep: T -> bool)
    requires SortedDesc(s, key)
    ensures SortedDesc(Filter(s, keep), key)
  {
    if s != [] {
      SortedTail(s, key);
      FilterSorted(s[1..], key, keep);
      var f := Filter(s, keep);
      var tail := Filter(s[1..], keep);
      if keep(s[0]) {
        assert f == [s[0]] + tail;
        forall j | 1 <= j < |f| ensures key(f[0]) >= key(f[j]) {
          assert f[j] == tail[j - 1] && tail[j - 1] in tail;
        }
      }
    }
  }

  lemma {:induction false} FilterAppend<T>(a: seq<T>, b: seq<T>, keep: T -> bool)
    ensures Filter(a + b, keep) == Filter(a, keep) + Filter(b, keep)
  {
    if a == [] {
      assert a + b == b;
    } else {
      var ab := a + b;
      assert ab[0] == a[0] && ab[1..] == a[1..] + b;
      var head := if keep(a[0]) then [a[0]] else [];
      assert Filter(ab, keep) == head + Filter(a[1..] + b, keep);
      FilterAppend(a[1..], b, keep);
      assert Filter(a, keep) == head + Filter(a[1..], keep);
    }
  }

  /** Taking one element out of a list loses one kept element exactly when it is kept. */
  lemma FilterRemove<T>(b: seq<T>, i: nat, keep: T -> bool)
    requires i < |b|
    ensures |Filter(b, keep)| == |Filter(b[..i] + b[i + 1..], keep)| + (if keep(b[i]) then 1 else 0)
  {
    assert b == b[..i] + [b[i]] + b[i + 1..];
    FilterAppend(b[..i] + [b[i]], b[i + 1..], keep);
    FilterAppend(b[..i], [b[i]], keep);
    FilterAppend(b[..i], b[i + 1..], keep);
    assert [b[i]][1..] == [];
  }

  /** Reordering a list does not change how many of its elements are kept. */
  lemma {:induction false} FilterCountPerm<T>(a: seq<T>, b: seq<T>, keep: T -> bool)
    requires multiset(a) == multiset(b)
    ensures |Filter(a, keep)| == |Filter(b, keep)|
    decreases |a|
  {
    if a == [] {
      assert |b| == |multiset(b)| == 0;
    } else {
      var x := a[0];
      assert x in multiset(a);
      var i :| 0 <= i < |b| && b[i] == x;
      var b' := b[..i] + b[i + 1..];
      assert b == b[..i] + [x] + b[i + 1..];
      assert multiset(b) == multiset(b[..i]) + multiset{x} + multiset(b[i + 1..]);
      assert a == [x] + a[1..];
      assert multiset(a) == multiset{x} + multiset(a[1..]);
      assert multiset(b') == multiset(b[..i]) + multiset(b[i + 1..]);
      MultisetCancel(x, multiset(a[1..]), multiset(b[..i]), multiset(b[i + 1..]));
      FilterCountPerm(a[1..], b', keep);
      FilterRemove(b, i, keep);
    }
  }

  lemma MultisetCancel<T>(x: T, m: multiset<T>, l: multiset<T>, r: multiset<T>)
    requires multiset{x} + m == l + multiset{x} + r
    ensures m == l + r
  {
    forall y ensures m[y] == (l + r)[y] {
      assert (multiset{x} + m)[y] == (l + multiset{x} + r)[y];
    }
  }

  lemma {:induction false} FilterNone<T>(s: seq<T>, keep: T -> bool)
    requires forall x :: x in s ==> !keep(x)
    ensures Filter(s, keep) == []
  {
    if s != [] {
      FilterNone(s[1..], keep);
    }
  }

  lemma {:induction false} FilterAll<T>(s: seq<T>, keep: T -> bool)
    requires forall x :: x in s ==> keep(x)
    ensures Filter(s, keep) == s
  {
    if s != [] {
      FilterAll(s[1..], keep);
    }
  }

  /** When `keep` accepts every element ranked at least as high as one it accepts, the
      top n keep as many elements as the whole list has, up to n. */
  lemma TopFilterCount<T>(s: seq<T>, key: T -> real, n: nat, keep: T -> bool)
    requires forall x, y :: keep(y) && key(x) >= key(y) ==> keep(x)
    ensures |Filter(Top(s, key, n), keep)| == Min(n, |Filter(s, keep)|)
  {
    SortDescCorrect(s, key);
    var t := SortDesc(s, key);
    FilterCountPerm(t, s, keep);
    PrefixFilterCount(t, key, Min(n, |s|), keep);
  }

  lemma PrefixFilterCount<T>(t: seq<T>, key: T -> real, k: nat, keep: T -> bool)
    requires k <= |t| && SortedDesc(t, key)
    requires forall x, y :: keep(y) && key(x) >= key(y) ==> keep(x)
    ensures |Filter(t[..k], keep)| == Min(k, |Filter(t, keep)|)
  {
    var r, rest := t[..k], t[k..];
    assert t == r + rest;
    FilterAppend(r, rest, keep);
    if y :| y in r && !keep(y) {
      SortedSplit(t, k, key);
      FilterNone(rest, keep);
    } else {
      FilterAll(r, keep);
    }
  }

  // ---------------------------------------------------------------- in place

  /** Where the insertion loop stops, the element goes. */
  lemma {:induction false} InsertAt<T>(x: T, s: seq<T>, key: T -> real, j: nat)
    requires SortedDesc(s, key) && j <= |s|
    requires j > 0 ==> key(s[j - 1]) >= key(x)
    requires j < |s| ==> key(s[j]) < key(x)
    ensures Insert(x, s, key) == s[..j] + [x] + s[j..]
  {
    if j == 0 {
      assert s[j..] == s;
    } else {
      var t := s[1..];
      assert key(s[0]) >= key(s[j - 1]);
      SortedTail(s, key);
      assert j - 1 > 0 ==> t[j - 2] == s[j - 1];
      assert j - 1 < |t| ==> t[j - 1] == s[j];
      InsertAt(x, t, key, j - 1);
      assert Insert(x, s, key) == [s[0]] + Insert(x, t, key);
      PlaceInTail(x, s, j);
    }
  }

  lemma PlaceInTail<T>(x: T, s: seq<T>, j: nat)
    requires 0 < j <= |s|
    ensures [s[0]] + (s[1..][..j - 1] + [x] + s[1..][j - 1..]) == s[..j] + [x] + s[j..]
  {
    assert s[1..][..j - 1] == s[1..j] && s[1..][j - 1..] == s[j..];
    assert s[..j] == [s[0]] + s[1..j];
  }

  /** One pass of the insertion sort: `a[i]` moves left past the strictly smaller
      keys of the sorted prefix `a[..i]`. */
  method InsertStep<T>(a: array<T>, i: nat, key: T -> real)
    requires i < a.Length && SortedDesc(a[..i], key)
    modifies a
    ensures a[..i + 1] == Insert(old(a[i]), old(a[..i]), key)
    ensures a[i + 1..] == old(a[i + 1..])
  {
    ghost var sorted := a[..i];
    var x := a[i];
    var j := ShiftSmaller(a, i, key);
    a[j] := x;
    InsertAt(x, sorted, key, j);
    Shifted(a[..i + 1], sorted, x, j);
    assert a[i + 1..] == old(a[i + 1..]);
  }

  /** The loop of one insertion pass: moves the elements of the sorted prefix whose
      key is below `a[i]`'s one place right and returns the gap they leave. */
  method ShiftSmaller<T>(a: array<T>, i: nat, key: T -> real) returns (j: nat)
    requires i < a.Length
    modifies a
    ensures j <= i
    ensures forall k :: 0 <= k < j ==> a[k] == old(a[k])
    ensures forall k :: j < k <= i ==> a[k] == old(a[k - 1])
    ensures forall k :: i < k < a.Length ==> a[k] == old(a[k])
    ensures j > 0 ==> key(old(a[j - 1])) >= key(old(a[i]))
    ensures j < i ==> key(old(a[j])) < key(old(a[i]))
  {
    var x := a[i];
    j := i;
    while j > 0 && key(a[j - 1]) < key(x)
      invariant 0 <= j <= i
      invariant forall k :: 0 <= k < j ==> a[k] == old(a[k])
      invariant forall k :: j < k <= i ==> a[k] == old(a[k - 1])
      invariant forall k :: i < k < a.Length ==> a[k] == old(a[k])
      invariant j < i ==> key(old(a[j])) < key(x)
    {
      a[j] := a[j - 1];
      j := j - 1;
    }
  }

  /** The array prefix after the loop: `sorted` with `x` placed at `j`. */
  lemma Shifted<T>(b: seq<T>, sorted: seq<T>, x: T, j: nat)
    requires j <= |sorted| && |b| == |sorted| + 1
    requires forall k :: 0 <= k < j ==> b[k] == sorted[k]
    requires b[j] == x
    requires forall k :: j < k < |b| ==> b[k] == sorted[k - 1]
    ensures b == sorted[..j] + [x] + sorted[j..]
  {
    var expected := sorted[..j] + [x] + sorted[j..];
    forall k | 0 <= k < |b| ensures b[k] == expected[k] {
      if k < j {
        assert expected[k] == sorted[k];
      } else if k > j {
        assert expected[k] == sorted[k - 1];
      }
    }
  }

  /** `xs.sort(key=key, reverse=True)` on an array, as an in-place insertion sort. */
  method SortInPlace<T>(a: array<T>, key: T -> real)
    modifies a
    ensures a[..] == SortDesc(old(a[..]), key)
  {
    ghost var original := a[..];
    var i := 0;
    while i < a.Length
      invariant 0 <= i <= a.Length
      invariant a[..i] == SortDesc(original[..i], key)
      invariant a[i..] == original[i..]
    {
      SortDescSorted(original[..i], key);
      InsertStep(a, i, key);
      SortDescPrefix(original, i, key);
      i := i + 1;
    }
    assert original[..a.Length] == original;
  }

  lemma SortDescLength<T>(s: seq<T>, key: T -> real)
    ensures |SortDesc(s, key)| == |s|
  {
    SortDescCorrect(s, key);
  }

  lemma SortDescSorted<T>(s: seq<T>, key: T -> real)
    ensures SortedDesc(SortDesc(s, key), key)
  {
    SortDescCorrect(s, key);
  }

  /** Sorting one more element of a prefix inserts it into the sorted shorter prefix. */
  lemma SortDescPrefix<T>(s: seq<T>, i: nat, key: T -> real)
    requires i < |s|
    ensures SortDesc(s[..i + 1], key) == Insert(s[i], SortDesc(s[..i], key), key)
  {
    assert s[..i + 1][..i] == s[..i];
  }
}

/** Stable sorting by an integer key, as `Array.prototype.sort` does it, with the two facts the
    bounded readers need: sorting a concatenation is merging the sorted parts, and a prefix of a
    merge needs no more than the same prefix of each part. */
module StableSort {

  ghost predicate Sorted<T>(s: seq<T>, key: T -> int) {
    forall i, j :: 0 <= i < j < |s| ==> key(s[i]) <= key(s[j])
  }

  /** Merges two runs; on equal keys the left run goes first. */
  function Merge<T>(a: seq<T>, b: seq<T>, key: T -> int): seq<T> {
    if a == [] then b
    else if b == [] then a
    else if key(a[0]) <= key(b[0]) then [a[0]] + Merge(a[1..], b, key)
    else [b[0]] + Merge(a, b[1..], key)
  }

  function Sort<T>(s: seq<T>, key: T -> int): seq<T> {
    if s == [] then [] else Merge([s[0]], Sort(s[1..], key), key)
  }

  function Take<T>(n: nat, s: seq<T>): seq<T> {
    if n <= |s| then s[..n] else s
  }

  /** The elements with key `k`, in order. */
  function WithKey<T>(s: seq<T>, key: T -> int, k: int): seq<T> {
    if s == [] then []
    else if key(s[0]) == k then [s[0]] + WithKey(s[1..], key, k)
    else WithKey(s[1..], key, k)
  }

  // ---------- Sort is a stable sort ----------

  lemma {:induction false} MergeMembers<T>(a: seq<T>, b: seq<T>, key: T -> int)
    ensures multiset(Merge(a, b, key)) == multiset(a) + multiset(b)
    ensures |Merge(a, b, key)| == |a| + |b|
  {
    if a != [] && b != [] {
      if key(a[0]) <= key(b[0]) {
        MergeMembers(a[1..], b, key);
        assert a == [a[0]] + a[1..];
      } else {
        MergeMembers(a, b[1..], key);
        assert b == [b[0]] + b[1..];
      }
    }
  }

  lemma {:induction false} MergeElements<T(!new)>(a: seq<T>, b: seq<T>, key: T -> int)
    ensures forall x :: x in Merge(a, b, key) <==> x in a || x in b
  {
    if a != [] && b != [] {
      if key(a[0]) <= key(b[0]) {
        MergeElements(a[1..], b, key);
      } else {
        MergeElements(a, b[1..], key);
      }
    }
  }

  lemma HeadIsLeast<T(!new)>(s: seq<T>, key: T -> int)
    requires s != [] && Sorted(s, key)
    ensures forall y :: y in s ==> key(s[0]) <= key(y)
  {
  }

  lemma ConsSorted<T(!new)>(x: T, s: seq<T>, key: T -> int)
    requires Sorted(s, key) && forall y :: y in s ==> key(x) <= key(y)
    ensures Sorted([x] + s, key)
  {
  }

  lemma {:induction false} MergeSorted<T(!new)>(a: seq<T>, b: seq<T>, key: T -> int)
    requires Sorted(a, key) && Sorted(b, key)
    ensures Sorted(Merge(a, b, key), key)
  {
    if a != [] && b != [] {
      HeadIsLeast(a, key);
      HeadIsLeast(b, key);
      if key(a[0]) <= key(b[0]) {
        MergeSorted(a[1..], b, key);
        MergeElements(a[1..], b, key);
        forall y | y in Merge(a[1..], b, key) ensures key(a[0]) <= key(y) {
          assert y in a[1..] || y in b;
        }
        ConsSorted(a[0], Merge(a[1..], b, key), key);
      } else {
        MergeSorted(a, b[1..], key);
        MergeElements(a, b[1..], key);
        forall y | y in Merge(a, b[1..], key) ensures key(b[0]) <= key(y) {
          assert y in a || y in b[1..];
        }
        ConsSorted(b[0], Merge(a, b[1..], key), key);
      }
    }
  }

  lemma {:induction false} MergeStable<T>(a: seq<T>, b: seq<T>, key: T -> int, k: int)
    requires Sorted(a, key) && Sorted(b, key)
    ensures WithKey(Merge(a, b, key), key, k) == WithKey(a, key, k) + WithKey(b, key, k)
  {
    if a != [] && b != [] {
      if key(a[0]) <= key(b[0]) {
        MergeStable(a[1..], b, key, k);
      } else {
        MergeStable(a, b[1..], key, k);
        if key(b[0]) == k {
          NoneWithKey(a, key, k);
        }
      }
    }
  }

  lemma {:induction false} NoneWithKey<T>(s: seq<T>, key: T -> int, k: int)
    requires forall i :: 0 <= i < |s| ==> key(s[i]) != k
    ensures WithKey(s, key, k) == []
  {
    if s != [] {
      NoneWithKey(s[1..], key, k);
    }
  }

  lemma {:induction false} SortIsSorted<T(!new)>(s: seq<T>, key: T -> int)
    ensures Sorted(Sort(s, key), key)
    ensures multiset(Sort(s, key)) == multiset(s)
  {
    if s != [] {
      SortIsSorted(s[1..], key);
      MergeSorted([s[0]], Sort(s[1..], key), key);
      MergeMembers([s[0]], Sort(s[1..], key), key);
      assert s == [s[0]] + s[1..];
    }
  }

  lemma {:induction false} SortIsStable<T(!new)>(s: seq<T>, key: T -> int, k: int)
    ensures WithKey(Sort(s, key), key, k) == WithKey(s, key, k)
  {
    if s != [] {
      SortIsStable(s[1..], key, k);
      SortIsSorted(s[1..], key);
      MergeStable([s[0]], Sort(s[1..], key), key, k);
      assert [s[0]][1..] == [];
      assert WithKey([s[0]], key, k) == if key(s[0]) == k then [s[0]] else [];
    }
  }

  lemma SortMembers<T(!new)>(s: seq<T>, key: T -> int)
    ensures |Sort(s, key)| == |s|
    ensures forall x :: x in Sort(s, key) <==> x in s
  {
    SortIsSorted(s, key);
    assert |multiset(Sort(s, key))| == |multiset(s)|;
    forall x ensures x in Sort(s, key) <==> x in s {
      assert x in multiset(Sort(s, key)) <==> x in multiset(s);
    }
  }

  // ---------- Merging sorted runs ----------

  lemma {:induction false} MergeAssociative<T>(a: seq<T>, b: seq<T>, c: seq<T>, key: T -> int)
    requires Sorted(a, key) && Sorted(b, key) && Sorted(c, key)
    ensures Merge(Merge(a, b, key), c, key) == Merge(a, Merge(b, c, key), key)
    decreases |a| + |b| + |c|
  {
    if a != [] && b != [] && c != [] {
      if key(a[0]) <= key(b[0]) && key(a[0]) <= key(c[0]) {
        MergeAssociative(a[1..], b, c, key);
      } else if key(b[0]) < key(a[0]) && key(b[0]) <= key(c[0]) {
        MergeAssociative(a, b[1..], c, key);
      } else {
        MergeAssociative(a, b, c[1..], key);
      }
    }
  }

  lemma {:induction false} SortConcat<T(!new)>(s: seq<T>, t: seq<T>, key: T -> int)
    ensures Sort(s + t, key) == Merge(Sort(s, key), Sort(t, key), key)
  {
    if s == [] {
      assert s + t == t;
    } else {
      assert (s + t)[1..] == s[1..] + t;
      SortConcat(s[1..], t, key);
      SortIsSorted(s[1..], key);
      SortIsSorted(t, key);
      MergeAssociative([s[0]], Sort(s[1..], key), Sort(t, key), key);
    }
  }

  lemma {:induction false} SortOfSorted<T>(s: seq<T>, key: T -> int)
    requires Sorted(s, key)
    ensures Sort(s, key) == s
  {
    if s != [] {
      SortOfSorted(s[1..], key);
      assert s == [s[0]] + s[1..];
      var head := [s[0]];
      assert Merge(head, s[1..], key) == s by {
        assert head[1..] == [];
        assert |s| > 1 ==> key(head[0]) <= key(s[1..][0]);
      }
    }
  }

  lemma TakeCons<T>(n: nat, x: T, s: seq<T>)
    requires n > 0
    ensures Take(n, [x] + s) == [x] + Take(n - 1, s)
  {
  }

  lemma {:induction false} TakeMergeLeft<T>(n: nat, k: nat, a: seq<T>, b: seq<T>, key: T -> int)
    requires n <= k
    ensures Take(n, Merge(a, b, key)) == Take(n, Merge(Take(k, a), b, key))
  {
    var a' := Take(k, a);
    if n == 0 || a == [] {
    } else if b == [] {
      assert Take(n, a) == Take(n, a');
    } else if key(a[0]) <= key(b[0]) {
      TakeMergeLeft(n - 1, k - 1, a[1..], b, key);
      assert a'[1..] == Take(k - 1, a[1..]);
      TakeCons(n, a[0], Merge(a[1..], b, key));
      TakeCons(n, a[0], Merge(a'[1..], b, key));
    } else {
      TakeMergeLeft(n - 1, k, a, b[1..], key);
      TakeCons(n, b[0], Merge(a, b[1..], key));
      TakeCons(n, b[0], Merge(a', b[1..], key));
    }
  }

  lemma {:induction false} TakeMergeRight<T>(n: nat, k: nat, a: seq<T>, b: seq<T>, key: T -> int)
    requires n <= k
    ensures Take(n, Merge(a, b, key)) == Take(n, Merge(a, Take(k, b), key))
  {
    var b' := Take(k, b);
    if n == 0 || b == [] {
    } else if a == [] {
      assert Take(n, b) == Take(n, b');
    } else if key(a[0]) <= key(b[0]) {
      TakeMergeRight(n - 1, k, a[1..], b, key);
      TakeCons(n, a[0], Merge(a[1..], b, key));
      TakeCons(n, a[0], Merge(a[1..], b', key));
    } else {
      TakeMergeRight(n - 1, k - 1, a, b[1..], key);
      assert b'[1..] == Take(k - 1, b[1..]);
      TakeCons(n, b[0], Merge(a, b[1..], key));
      TakeCons(n, b[0], Merge(a, b'[1..], key));
    }
  }

  /** The first n of a merge depend on no more than the first k >= n of each run. */
  lemma TakeMerge<T>(n: nat, k: nat, a: seq<T>, b: seq<T>, key: T -> int)
    requires n <= k
    ensures Take(n, Merge(a, b, key)) == Take(n, Merge(Take(k, a), Take(k, b), key))
  {
    TakeMergeLeft(n, k, a, b, key);
    TakeMergeRight(n, k, Take(k, a), b, key);
  }
}

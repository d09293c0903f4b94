/** Order-independent sums over sequences and maps. */
module Sums {

  function SumBy<T>(s: seq<T>, f: T -> int): int {
    if s == [] then 0 else SumBy(s[..|s| - 1], f) + f(s[|s| - 1])
  }

  lemma SumAppend<T>(s: seq<T>, x: T, f: T -> int)
    ensures SumBy(s + [x], f) == SumBy(s, f) + f(x)
  {
    assert (s + [x])[..|s|] == s;
  }

  lemma {:induction false} SumConcat<T>(s: seq<T>, t: seq<T>, f: T -> int)
    ensures SumBy(s + t, f) == SumBy(s, f) + SumBy(t, f)
  {
    if t == [] {
      assert s + t == s;
    } else {
      var last := |t| - 1;
      SumConcat(s, t[..last], f);
      assert (s + t)[..|s + t| - 1] == s + t[..last];
    }
  }

  lemma {:induction false} SumUpdate<T>(s: seq<T>, i: nat, x: T, f: T -> int)
    requires i < |s|
    ensures SumBy(s[i := x], f) == SumBy(s, f) - f(s[i]) + f(x)
  {
    var last := |s| - 1;
    if i == last {
      assert s[i := x][..last] == s[..last];
    } else {
      SumUpdate(s[..last], i, x, f);
      assert s[i := x][..last] == s[..last][i := x];
    }
  }

  lemma {:induction false} SumNonNegative<T>(s: seq<T>, f: T -> int)
    requires forall x :: x in s ==> f(x) >= 0
    ensures SumBy(s, f) >= 0
  {
    if s != [] {
      assert s[|s| - 1] in s;
      SumNonNegative(s[..|s| - 1], f);
    }
  }

  /** One term of a sum of non-negative terms is at most the sum. */
  lemma {:induction false} SumAtLeast<T>(s: seq<T>, i: nat, f: T -> int)
    requires i < |s|
    requires forall x :: x in s ==> f(x) >= 0
    ensures f(s[i]) <= SumBy(s, f)
  {
    var last := |s| - 1;
    assert s[last] in s;
    if i == last {
      SumNonNegative(s[..last], f);
    } else {
      SumAtLeast(s[..last], i, f);
    }
  }

  lemma {:induction false} SumZero<T>(s: seq<T>, f: T -> int)
    requires forall x :: x in s ==> f(x) == 0
    ensures SumBy(s, f) == 0
  {
    if s != [] {
      assert s[|s| - 1] in s;
      SumZero(s[..|s| - 1], f);
    }
  }

  lemma {:induction false} SumPointwise<S, T>(s: seq<S>, t: seq<T>, f: S -> int, g: T -> int)
    requires |s| == |t|
    requires forall i :: 0 <= i < |s| ==> f(s[i]) == g(t[i])
    ensures SumBy(s, f) == SumBy(t, g)
  {
    if s != [] {
      SumPointwise(s[..|s| - 1], t[..|t| - 1], f, g);
    }
  }

  // ---------- Maps ----------

  ghost function SumMap<K, V>(m: map<K, V>, f: V -> int): int
    decreases |m|
  {
    if m == map[] then 0
    else
      var k :| k in m;
      f(m[k]) + SumMap(m - {k}, f)
  }

  /** The sum does not depend on the key taken out first. */
  lemma {:induction false} SumMapRemove<K, V>(m: map<K, V>, k: K, f: V -> int)
    requires k in m
    ensures SumMap(m, f) == f(m[k]) + SumMap(m - {k}, f)
    decreases |m|
  {
    var first :| first in m && SumMap(m, f) == f(m[first]) + SumMap(m - {first}, f);
    if first != k {
      SumMapRemove(m - {first}, k, f);
      SumMapRemove(m - {k}, first, f);
      assert m - {first} - {k} == m - {k} - {first};
    }
  }

  lemma SumMapUpdate<K, V>(m: map<K, V>, k: K, v: V, f: V -> int)
    ensures SumMap(m[k := v], f) == SumMap(m, f) - (if k in m then f(m[k]) else 0) + f(v)
  {
    SumMapRemove(m[k := v], k, f);
    assert m[k := v] - {k} == m - {k};
    if k in m {
      SumMapRemove(m, k, f);
    } else {
      assert m - {k} == m;
    }
  }
}

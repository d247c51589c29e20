/** Sums of weights over sequences and over the values of maps. Every conservation law of the
    project is a statement about such a sum, so the lemmas say how one changes when a single
    element is replaced, added or removed. */
module Sums {

  /** The weights of all elements, added up. */
  ghost function SeqSum<T>(s: seq<T>, weight: T -> nat): nat {
    if s == [] then 0 else SeqSum(s[..|s| - 1], weight) + weight(s[|s| - 1])
  }

  lemma {:induction false} SeqSumConcat<T>(a: seq<T>, b: seq<T>, weight: T -> nat)
    ensures SeqSum(a + b, weight) == SeqSum(a, weight) + SeqSum(b, weight)
  {
    if b == [] {
      assert a + b == a;
    } else {
      assert (a + b)[..|a + b| - 1] == a + b[..|b| - 1];
      SeqSumConcat(a, b[..|b| - 1], weight);
    }
  }

  lemma SeqSumEmpty<T>(weight: T -> nat)
    ensures SeqSum([], weight) == 0
  {
  }

  lemma SeqSumSingle<T>(x: T, weight: T -> nat)
    ensures SeqSum([x], weight) == weight(x)
  {
    assert [x][..0] == [];
  }

  lemma SeqSumAppend<T>(s: seq<T>, x: T, weight: T -> nat)
    ensures SeqSum(s + [x], weight) == SeqSum(s, weight) + weight(x)
  {
    assert (s + [x])[..|s|] == s;
  }

  lemma SeqSumPrepend<T>(x: T, s: seq<T>, weight: T -> nat)
    ensures SeqSum([x] + s, weight) == weight(x) + SeqSum(s, weight)
  {
    SeqSumConcat([x], s, weight);
    SeqSumSingle(x, weight);
  }

  lemma {:induction false} SeqSumUpdate<T>(s: seq<T>, i: nat, x: T, weight: T -> nat)
    requires i < |s|
    ensures SeqSum(s[i := x], weight) + weight(s[i]) == SeqSum(s, weight) + weight(x)
  {
    var n := |s| - 1;
    if i == n {
      assert s[i := x][..n] == s[..n];
    } else {
      assert s[i := x][..n] == s[..n][i := x];
      SeqSumUpdate(s[..n], i, x, weight);
    }
  }

  /** An element counts at most as much as the whole. */
  lemma {:induction false} SeqSumAtLeast<T>(s: seq<T>, i: nat, weight: T -> nat)
    requires i < |s|
    ensures weight(s[i]) <= SeqSum(s, weight)
  {
    if i < |s| - 1 {
      SeqSumAtLeast(s[..|s| - 1], i, weight);
    }
  }

  lemma {:induction false} SeqSumSame<T>(s: seq<T>, f: T -> nat, g: T -> nat)
    requires forall x :: x in s ==> f(x) == g(x)
    ensures SeqSum(s, f) == SeqSum(s, g)
  {
    if s != [] {
      SeqSumSame(s[..|s| - 1], f, g);
    }
  }

  /** A larger weight gives a larger sum. */
  lemma {:induction false} SeqSumLarger<T>(s: seq<T>, f: T -> nat, g: T -> nat)
    requires forall x :: x in s ==> f(x) <= g(x)
    ensures SeqSum(s, f) <= SeqSum(s, g)
  {
    if s != [] {
      SeqSumLarger(s[..|s| - 1], f, g);
    }
  }

  lemma {:induction false} SeqSumConstant<T>(s: seq<T>, weight: T -> nat, c: nat)
    requires forall x :: x in s ==> weight(x) == c
    ensures SeqSum(s, weight) == c * |s|
  {
    if s != [] {
      SeqSumConstant(s[..|s| - 1], weight, c);
    }
  }

  /** The order of the elements does not matter. */
  lemma {:induction false} SeqSumPermutes<T>(a: seq<T>, b: seq<T>, weight: T -> nat)
    requires multiset(a) == multiset(b)
    ensures SeqSum(a, weight) == SeqSum(b, weight)
  {
    assert |a| == |multiset(a)| == |multiset(b)| == |b|;
    if a != [] {
      var n := |a| - 1;
      assert a[n] in multiset(b);
      var j :| 0 <= j < |b| && b[j] == a[n];
      SeqSumWithout(a, n, weight);
      SeqSumWithout(b, j, weight);
      hide SeqSum;
      SeqSumPermutes(a[..n] + a[n + 1..], b[..j] + b[j + 1..], weight);
    }
  }

  lemma SeqSumWithout<T>(s: seq<T>, i: nat, weight: T -> nat)
    requires i < |s|
    ensures SeqSum(s, weight) == SeqSum(s[..i] + s[i + 1..], weight) + weight(s[i])
    ensures multiset(s[..i] + s[i + 1..]) == multiset(s) - multiset{s[i]}
  {
    hide SeqSum;
    assert s == s[..i] + [s[i]] + s[i + 1..];
    SeqSumConcat(s[..i], s[i + 1..], weight);
    SeqSumConcat(s[..i] + [s[i]], s[i + 1..], weight);
    SeqSumAppend(s[..i], s[i], weight);
  }

  /** The weights of all values of a map, added up. */
  ghost function MapSum<K, V>(m: map<K, V>, weight: V -> nat): nat {
    if m == map[] then 0
    else
      var k :| k in m;
      weight(m[k]) + MapSum(m - {k}, weight)
  }

  lemma {:induction false} MapSumRemove<K, V>(m: map<K, V>, k: K, weight: V -> nat)
    requires k in m
    ensures MapSum(m, weight) == weight(m[k]) + MapSum(m - {k}, weight)
    decreases |m|
  {
    var c :| c in m && MapSum(m, weight) == weight(m[c]) + MapSum(m - {c}, weight);
    if c != k {
      MapSumRemove(m - {c}, k, weight);
      MapSumRemove(m - {k}, c, weight);
      assert m - {c} - {k} == m - {k} - {c};
    }
  }

  lemma MapSumInsert<K, V>(m: map<K, V>, k: K, v: V, weight: V -> nat)
    ensures k in m ==> MapSum(m[k := v], weight) + weight(m[k]) == MapSum(m, weight) + weight(v)
    ensures k !in m ==> MapSum(m[k := v], weight) == MapSum(m, weight) + weight(v)
  {
    MapSumRemove(m[k := v], k, weight);
    assert m[k := v] - {k} == m - {k};
    if k in m {
      MapSumRemove(m, k, weight);
    } else {
      assert m - {k} == m;
    }
  }
}

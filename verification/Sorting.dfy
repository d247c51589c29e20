/** Sorting by a given comparison, as `sort_by` and `sort_by_key` do. */
module Sorting {

  /** What a comparison has to be for sorting to make sense. */
  ghost predicate TotalPreorder<T(!new)>(le: (T, T) -> bool) {
    && (forall a, b {:trigger le(a, b)} :: le(a, b) || le(b, a))
    && (forall a, b, c {:trigger le(a, b), le(b, c)} :: le(a, b) && le(b, c) ==> le(a, c))
  }

  ghost predicate Sorted<T>(s: seq<T>, le: (T, T) -> bool) {
    forall i, j :: 0 <= i < j < |s| ==> le(s[i], s[j])
  }

  /** Putting an element between those that may come before it and those that may come after it. */
  lemma InsertSorted<T>(s: seq<T>, k: nat, x: T, le: (T, T) -> bool)
    requires Sorted(s, le) && k <= |s|
    requires forall i :: 0 <= i < k ==> le(s[i], x)
    requires forall i :: k <= i < |s| ==> le(x, s[i])
    ensures Sorted(s[..k] + [x] + s[k..], le)
    ensures multiset(s[..k] + [x] + s[k..]) == multiset(s) + multiset{x}
  {
    assert s == s[..k] + s[k..];
  }

  /** The place after every element that may come before `x`. */
  method FindPlace<T(!new)>(s: seq<T>, x: T, le: (T, T) -> bool) returns (k: nat)
    requires TotalPreorder(le) && Sorted(s, le)
    ensures k <= |s|
    ensures forall i :: 0 <= i < k ==> le(s[i], x)
    ensures forall i :: k <= i < |s| ==> le(x, s[i])
  {
    k := |s|;
    while k > 0 && !le(s[k - 1], x)
      invariant 0 <= k <= |s|
      invariant forall i :: k <= i < |s| ==> le(x, s[i])
    {
      assert le(x, s[k - 1]);
      k := k - 1;
    }
    forall i | 0 <= i < k ensures le(s[i], x) {
      if i < k - 1 {
        assert le(s[i], s[k - 1]) && le(s[k - 1], x);
      }
    }
  }

  method Sort<T(!new)>(s: seq<T>, le: (T, T) -> bool) returns (r: seq<T>)
    requires TotalPreorder(le)
    ensures Sorted(r, le) && multiset(r) == multiset(s)
  {
    hide TotalPreorder, Sorted;
    assert Sorted<T>([], le) by {
      NothingIsSorted(le);
    }
    r := [];
    for k := 0 to |s|
      invariant Sorted(r, le) && multiset(r) == multiset(s[..k])
    {
      var place := FindPlace(r, s[k], le);
      InsertSorted(r, place, s[k], le);
      assert s[..k + 1] == s[..k] + [s[k]];
      r := r[..place] + [s[k]] + r[place..];
    }
    assert s[..|s|] == s;
  }

  lemma NothingIsSorted<T>(le: (T, T) -> bool)
    ensures Sorted([], le)
  {
  }
}

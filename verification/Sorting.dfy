/** std::sort as its callers may rely on it: some ordered permutation. Elements
    that compare equal may come out in any order. */
module Sorting {

  ghost predicate TotalPreorder<T(!new)>(leq: (T, T) -> bool) {
    && (forall a, b :: leq(a, b) || leq(b, a))
    && (forall a, b, c :: leq(a, b) && leq(b, c) ==> leq(a, c))
  }

  ghost predicate Sorted<T>(s: seq<T>, leq: (T, T) -> bool) {
    forall i, j :: 0 <= i < j < |s| ==> leq(s[i], s[j])
  }

  lemma InsertedSorted<T(!new)>(s: seq<T>, k: nat, x: T, leq: (T, T) -> bool)
    requires TotalPreorder(leq) && Sorted(s, leq) && k <= |s|
    requires forall j :: 0 <= j < k ==> leq(s[j], x)
    requires k < |s| ==> leq(x, s[k])
    ensures Sorted(s[..k] + [x] + s[k..], leq)
    ensures multiset(s[..k] + [x] + s[k..]) == multiset(s) + multiset{x}
  {
    assert s == s[..k] + s[k..];
    var t := s[..k] + [x] + s[k..];
    forall i, j | 0 <= i < j < |t|
      ensures leq(t[i], t[j])
    {
      var i', j' := if i <= k then i else i - 1, if j <= k then j else j - 1;
      assert i != k ==> t[i] == s[i'];
      assert j != k ==> t[j] == s[j'];
      if i == k {
        assert leq(x, s[k]);
        assert j' == k || leq(s[k], s[j']);
      }
    }
  }

  method SortBy<T(!new)>(items: seq<T>, leq: (T, T) -> bool) returns (sorted: seq<T>)
    requires TotalPreorder(leq)
    ensures multiset(sorted) == multiset(items) && Sorted(sorted, leq)
  {
    sorted := [];
    for i := 0 to |items|
      invariant multiset(sorted) == multiset(items[..i]) && Sorted(sorted, leq)
    {
      var k := 0;
      while k < |sorted| && leq(sorted[k], items[i])
        invariant k <= |sorted|
        invariant forall j :: 0 <= j < k ==> leq(sorted[j], items[i])
      {
        k := k + 1;
      }
      InsertedSorted(sorted, k, items[i], leq);
      assert items[..i + 1] == items[..i] + [items[i]];
      sorted := sorted[..k] + [items[i]] + sorted[k..];
    }
    assert items[..|items|] == items;
  }
}

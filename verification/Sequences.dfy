/**
 Facts about lists and the bags of their elements that several modules use.
 */
module Sequences {

  ghost predicate Distinct<T>(s: seq<T>) {
    forall i, j | 0 <= i < j < |s| :: s[i] != s[j]
  }

  lemma DistinctSnoc<T>(s: seq<T>, x: T)
    requires Distinct(s) && x !in s
    ensures Distinct(s + [x])
  {}

  /** The last element counts once. */
  lemma CountLast<T>(s: seq<T>, x: T)
    requires s != []
    ensures var n := |s| - 1; multiset(s)[x] == multiset(s[..n])[x] + if x == s[n] then 1 else 0
    ensures x in s <==> multiset(s)[x] > 0
  {
    assert s == s[..|s| - 1] + [s[|s| - 1]];
    assert x in s <==> x in multiset(s);
  }

  /** Multiplication, kept apart from linear arithmetic. */
  function Times(k: nat, m: nat): nat {
    k * m
  }

  lemma TimesLaws(k: nat, m: nat, n: nat)
    ensures Times(k + 1, m) == Times(k, m) + m && Times(0, m) == 0 && Times(k, 0) == 0 && Times(1, m) == m
    ensures Times(k, m) == Times(m, k) && Times(Times(k, m), n) == Times(k, Times(m, n))
  {
    assert (k * m) * n == k * (m * n);
  }
}

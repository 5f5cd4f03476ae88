/**
 The join of two lists of rows by definition, its order, and how often each pair occurs in it.
 */
module Joins {
  import opened Types
  import opened Sequences
  import opened Ordering

  type Pair = (Row, Row)

  predicate Has(rows: seq<Row>, f: Str) {
    forall r | r in rows :: f in r
  }

  /** The pairs of `l` with those of `right` that have the same join value, in their order. */
  function PairsWith(l: Row, right: seq<Row>, f1: Str, f2: Str): seq<Pair>
    requires f1 in l && Has(right, f2)
  {
    if right == [] then []
    else
      var n := |right| - 1;
      PairsWith(l, right[..n], f1, f2) + if right[n][f2] == l[f1] then [(l, right[n])] else []
  }

  /** The join by definition: every left row with every matching right row. */
  function NestedLoops(left: seq<Row>, right: seq<Row>, f1: Str, f2: Str): seq<Pair>
    requires Has(left, f1) && Has(right, f2)
  {
    if left == [] then []
    else
      var n := |left| - 1;
      NestedLoops(left[..n], right, f1, f2) + PairsWith(left[n], right, f1, f2)
  }

  /** In a list sorted on `f`, smaller indices hold smaller or equal values. */
  ghost predicate SortedOn(rows: seq<Row>, f: Str) {
    Has(rows, f) && forall i, j | 0 <= i < j < |rows| :: LessEq(rows[i][f], rows[j][f])
  }

  lemma SortedOnField(rows: seq<Row>, f: Str)
    requires AllHave(rows, [f]) && Sorted([f], rows)
    ensures SortedOn(rows, f)
  {
    forall r | r in rows
      ensures f in r
    {
      assert HasFields(r, [f]);
    }
    forall i, j | 0 <= i < j < |rows|
      ensures LessEq(rows[i][f], rows[j][f])
    {
      assert Before([f], rows[i], rows[j]);
      TotalOrder(rows[i][f], rows[j][f]);
    }
  }

  // ---------------------------------------------------------------------------------------------
  // Pairs of sorted lists
  // ---------------------------------------------------------------------------------------------

  lemma PairsStep(l: Row, right: seq<Row>, f1: Str, f2: Str, j: nat)
    requires f1 in l && Has(right, f2) && j < |right|
    ensures PairsWith(l, right[..j + 1], f1, f2) ==
            PairsWith(l, right[..j], f1, f2) + if right[j][f2] == l[f1] then [(l, right[j])] else []
  {
    assert right[..j + 1][..j] == right[..j];
  }

  /** No pair comes from a stretch of rows with other values. */
  lemma {:induction false} NoPairs(l: Row, right: seq<Row>, f1: Str, f2: Str, i: nat, j: nat)
    requires f1 in l && Has(right, f2) && i <= j <= |right|
    requires forall k | i <= k < j :: right[k][f2] != l[f1]
    ensures PairsWith(l, right[..j], f1, f2) == PairsWith(l, right[..i], f1, f2)
  {
    if i < j {
      NoPairs(l, right, f1, f2, i, j - 1);
      PairsStep(l, right, f1, f2, j - 1);
    }
  }

  lemma LoopsStep(left: seq<Row>, right: seq<Row>, f1: Str, f2: Str, i: nat)
    requires Has(left, f1) && Has(right, f2) && i < |left|
    ensures NestedLoops(left[..i + 1], right, f1, f2) ==
            NestedLoops(left[..i], right, f1, f2) + PairsWith(left[i], right, f1, f2)
  {
    assert left[..i + 1][..i] == left[..i];
  }

  lemma {:induction false} LoopsPrefix(left: seq<Row>, right: seq<Row>, f1: Str, f2: Str, i: nat)
    requires Has(left, f1) && Has(right, f2) && i <= |left|
    ensures NestedLoops(left[..i], right, f1, f2) <= NestedLoops(left, right, f1, f2)
    decreases |left| - i
  {
    if i == |left| {
      assert left[..i] == left;
    } else {
      LoopsPrefix(left, right, f1, f2, i + 1);
      LoopsStep(left, right, f1, f2, i);
    }
  }

  lemma {:induction false} PairsPrefix(l: Row, right: seq<Row>, f1: Str, f2: Str, j: nat)
    requires f1 in l && Has(right, f2) && j <= |right|
    ensures PairsWith(l, right[..j], f1, f2) <= PairsWith(l, right, f1, f2)
    decreases |right| - j
  {
    if j == |right| {
      assert right[..j] == right;
    } else {
      PairsPrefix(l, right, f1, f2, j + 1);
      PairsStep(l, right, f1, f2, j);
    }
  }

  lemma {:induction false} PairsAppend(l: Row, a: seq<Row>, b: seq<Row>, f1: Str, f2: Str)
    requires f1 in l && Has(a, f2) && Has(b, f2)
    ensures Has(a + b, f2) && PairsWith(l, a + b, f1, f2) == PairsWith(l, a, f1, f2) + PairsWith(l, b, f1, f2)
  {
    if b == [] {
      assert a + b == a;
    } else {
      var n := |b| - 1;
      PairsAppend(l, a, b[..n], f1, f2);
      assert (a + b)[..|a + b| - 1] == a + b[..n];
    }
  }

  // ---------------------------------------------------------------------------------------------
  // How often each value occurs
  // ---------------------------------------------------------------------------------------------

  /** The number of rows with a value. */
  function KeyCount(rows: seq<Row>, f: Str, v: Value): nat
    requires Has(rows, f)
  {
    if rows == [] then 0 else (if rows[0][f] == v then 1 else 0) + KeyCount(rows[1..], f, v)
  }

  lemma {:induction false} KeyCountAppend(a: seq<Row>, b: seq<Row>, f: Str, v: Value)
    requires Has(a, f) && Has(b, f)
    ensures Has(a + b, f) && KeyCount(a + b, f, v) == KeyCount(a, f, v) + KeyCount(b, f, v)
  {
    if a == [] {
      assert a + b == b;
    } else {
      KeyCountAppend(a[1..], b, f, v);
      assert (a + b)[1..] == a[1..] + b;
    }
  }

  /** One row more at the front. */
  lemma KeyCountFrom(rows: seq<Row>, f: Str, v: Value, i: int)
    requires Has(rows, f) && 0 <= i < |rows|
    ensures KeyCount(rows[i..], f, v) == (if rows[i][f] == v then 1 else 0) + KeyCount(rows[i + 1..], f, v)
  {
    assert rows[i..][1..] == rows[i + 1..];
  }

  lemma {:induction false} KeyCountZero(rows: seq<Row>, f: Str, v: Value)
    requires Has(rows, f)
    ensures KeyCount(rows, f, v) == 0 <==> forall m | 0 <= m < |rows| :: rows[m][f] != v
  {
    if rows != [] {
      KeyCountZero(rows[1..], f, v);
      assert forall m | 0 < m < |rows| :: rows[m] == rows[1..][m - 1];
    }
  }

  lemma KeyCountSplit(rows: seq<Row>, f: Str, v: Value, i: int)
    requires Has(rows, f) && 0 <= i <= |rows|
    ensures KeyCount(rows, f, v) == KeyCount(rows[..i], f, v) + KeyCount(rows[i..], f, v)
  {
    assert rows == rows[..i] + rows[i..];
    KeyCountAppend(rows[..i], rows[i..], f, v);
  }

  lemma {:induction false} PairsLength(l: Row, right: seq<Row>, f1: Str, f2: Str)
    requires f1 in l && Has(right, f2)
    ensures |PairsWith(l, right, f1, f2)| == KeyCount(right, f2, l[f1])
  {
    if right != [] {
      var n := |right| - 1;
      PairsLength(l, right[..n], f1, f2);
      KeyCountSplit(right, f2, l[f1], n);
      KeyCountFrom(right, f2, l[f1], n);
      assert right[n + 1..] == [];
    }
  }

  // ---------------------------------------------------------------------------------------------
  // How often each pair occurs
  // ---------------------------------------------------------------------------------------------

  lemma {:induction false} CountPairs(l: Row, right: seq<Row>, f1: Str, f2: Str, p: Pair)
    requires f1 in l && Has(right, f2)
    ensures multiset(PairsWith(l, right, f1, f2))[p] ==
            if p.0 == l && p.1 in right && p.1[f2] == l[f1] then multiset(right)[p.1] else 0
  {
    if right != [] {
      var n := |right| - 1;
      CountPairs(l, right[..n], f1, f2, p);
      CountLast(right, p.1);
      var head := PairsWith(l, right[..n], f1, f2);
      var last := if right[n][f2] == l[f1] then [(l, right[n])] else [];
      assert PairsWith(l, right, f1, f2) == head + last;
      hide PairsWith;
      assert multiset(head + last)[p] == multiset(head)[p] + multiset(last)[p];
      assert p.1 in right[..n] <==> p.1 in multiset(right[..n]);
    }
  }

  lemma {:induction false} CountJoin(left: seq<Row>, right: seq<Row>, f1: Str, f2: Str, p: Pair)
    requires Has(left, f1) && Has(right, f2)
    ensures multiset(NestedLoops(left, right, f1, f2))[p] ==
            if p.0 in left && p.1 in right && p.0[f1] == p.1[f2]
            then Times(multiset(left)[p.0], multiset(right)[p.1]) else 0
  {
    if left != [] {
      var n := |left| - 1;
      CountJoin(left[..n], right, f1, f2, p);
      CountPairs(left[n], right, f1, f2, p);
      CountLast(left, p.0);
      hide PairsWith, Times;
      TimesLaws(multiset(left[..n])[p.0], multiset(right)[p.1], 0);
      var head, tail := NestedLoops(left[..n], right, f1, f2), PairsWith(left[n], right, f1, f2);
      assert multiset(NestedLoops(left, right, f1, f2))[p] == multiset(head)[p] + multiset(tail)[p];
      assert p.0 in left[..n] <==> p.0 in multiset(left[..n]);
    }
  }

  /** A pair with equal values occurs once for every occurrence of its left row and of its right row. */
  lemma JoinCount(left: seq<Row>, right: seq<Row>, f1: Str, f2: Str, p: Pair)
    requires Has(left, f1) && Has(right, f2)
    ensures multiset(NestedLoops(left, right, f1, f2))[p] ==
            if p.0 in left && p.1 in right && p.0[f1] == p.1[f2]
            then multiset(left)[p.0] * multiset(right)[p.1] else 0
  {
    CountJoin(left, right, f1, f2, p);
  }

  lemma SameMembers(a: seq<Row>, b: seq<Row>, f: Str)
    requires multiset(a) == multiset(b) && Has(a, f)
    ensures Has(b, f) && forall r :: r in a <==> r in b
  {
    forall r
      ensures r in a <==> r in b
    {
      assert r in a <==> r in multiset(a);
      assert r in b <==> r in multiset(b);
    }
  }

  /** The order of the inputs does not change which pairs come out, and how often. */
  lemma JoinIgnoresOrder(left: seq<Row>, left': seq<Row>, right: seq<Row>, right': seq<Row>, f1: Str, f2: Str)
    requires multiset(left) == multiset(left') && multiset(right) == multiset(right')
    requires Has(left, f1) && Has(right, f2)
    ensures Has(left', f1) && Has(right', f2)
    ensures multiset(NestedLoops(left, right, f1, f2)) == multiset(NestedLoops(left', right', f1, f2))
  {
    hide NestedLoops;
    SameMembers(left, left', f1);
    SameMembers(right, right', f2);
    forall p: Pair
      ensures multiset(NestedLoops(left, right, f1, f2))[p] == multiset(NestedLoops(left', right', f1, f2))[p]
    {
      JoinCount(left, right, f1, f2, p);
      JoinCount(left', right', f1, f2, p);
    }
  }

  lemma {:induction false} PairMembers(left: seq<Row>, right: seq<Row>, f1: Str, f2: Str)
    requires Has(left, f1) && Has(right, f2)
    ensures forall p | p in NestedLoops(left, right, f1, f2) :: p.0 in left && p.1 in right && p.0[f1] == p.1[f2]
  {
    forall p | p in NestedLoops(left, right, f1, f2)
      ensures p.0 in left && p.1 in right && p.0[f1] == p.1[f2]
    {
      JoinCount(left, right, f1, f2, p);
      assert p in multiset(NestedLoops(left, right, f1, f2));
    }
  }

  ghost predicate KeysUpTo(pairs: seq<Pair>, f1: Str, v: Value) {
    forall p | p in pairs :: f1 in p.0 && LessEq(p.0[f1], v)
  }

  ghost predicate InKeyOrder(pairs: seq<Pair>, f1: Str) {
    forall i, j | 0 <= i < j < |pairs| ::
      f1 in pairs[i].0 && f1 in pairs[j].0 && LessEq(pairs[i].0[f1], pairs[j].0[f1])
  }

  lemma OrderAppend(head: seq<Pair>, tail: seq<Pair>, f1: Str, l: Row)
    requires f1 in l && InKeyOrder(head, f1) && KeysUpTo(head, f1, l[f1])
    requires forall k | 0 <= k < |tail| :: tail[k].0 == l
    ensures InKeyOrder(head + tail, f1)
  {}

  /** A join of a sorted left side comes out in the order of its join values. */
  lemma {:induction false} KeyOrder(left: seq<Row>, right: seq<Row>, f1: Str, f2: Str)
    requires SortedOn(left, f1) && Has(right, f2)
    ensures InKeyOrder(NestedLoops(left, right, f1, f2), f1)
  {
    if left != [] {
      hide PairsWith, LessEq, InKeyOrder;
      var n := |left| - 1;
      KeyOrder(left[..n], right, f1, f2);
      PairMembers(left[..n], right, f1, f2);
      var head, tail := NestedLoops(left[..n], right, f1, f2), PairsWith(left[n], right, f1, f2);
      forall k | 0 <= k < |tail|
        ensures tail[k].0 == left[n]
      {
        CountPairs(left[n], right, f1, f2, tail[k]);
        assert tail[k] in multiset(tail);
      }
      forall p | p in head
        ensures f1 in p.0 && LessEq(p.0[f1], left[n][f1])
      {
        var m :| 0 <= m < n && left[m] == p.0;
      }
      OrderAppend(head, tail, f1, left[n]);
    } else {
      assert NestedLoops(left, right, f1, f2) == [];
    }
  }
}

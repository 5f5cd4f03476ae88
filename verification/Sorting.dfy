/**
 External sort: `SortPlan` splits its input into runs and merges them until at most two are left;
 `SortScan` merges the last two while it is read.
 */
module Sorting {
  import opened Types
  import opened Ordering

  // ---------------------------------------------------------------------------------------------
  // The algorithm as functions on sequences of rows
  // ---------------------------------------------------------------------------------------------

  /** Merging, with ties taken from the second run. */
  function Merge(fields: seq<Str>, a: seq<Row>, b: seq<Row>): seq<Row>
    requires AllHave(a, fields) && AllHave(b, fields)
    decreases |a| + |b|
  {
    if a == [] then b
    else if b == [] then a
    else if Compare(fields, a[0], b[0]) < 0 then [a[0]] + Merge(fields, a[1..], b)
    else [b[0]] + Merge(fields, a, b[1..])
  }

  /** Cuts the rows wherever one is smaller than the row in front of it. */
  function SplitRuns(fields: seq<Str>, rows: seq<Row>): seq<seq<Row>>
    requires AllHave(rows, fields)
  {
    if rows == [] then []
    else if |rows| == 1 then [rows]
    else
      var n := |rows| - 1;
      var runs := SplitRuns(fields, rows[..n]);
      if runs == [] || Compare(fields, rows[n], rows[n - 1]) < 0 then runs + [[rows[n]]]
      else runs[..|runs| - 1] + [runs[|runs| - 1] + [rows[n]]]
  }

  ghost predicate RunsHave(runs: seq<seq<Row>>, fields: seq<Str>) {
    forall r | r in runs :: AllHave(r, fields)
  }

  /** One merge iteration: neighbouring runs are merged in pairs, an odd one is kept. */
  function MergePass(fields: seq<Str>, runs: seq<seq<Row>>): (r: seq<seq<Row>>)
    requires RunsHave(runs, fields)
    ensures |r| == (|runs| + 1) / 2
  {
    if |runs| <= 1 then runs
    else [Merge(fields, runs[0], runs[1])] + MergePass(fields, runs[2..])
  }

  ghost function Union(runs: seq<seq<Row>>): multiset<Row> {
    if runs == [] then multiset{} else Union(runs[..|runs| - 1]) + multiset(runs[|runs| - 1])
  }

  ghost predicate AllSorted(fields: seq<Str>, runs: seq<seq<Row>>) {
    forall r | r in runs :: Sorted(fields, r)
  }

  // ---------------------------------------------------------------------------------------------
  // Merging
  // ---------------------------------------------------------------------------------------------

  lemma {:induction false} MergeMultiset(fields: seq<Str>, a: seq<Row>, b: seq<Row>)
    requires AllHave(a, fields) && AllHave(b, fields)
    ensures multiset(Merge(fields, a, b)) == multiset(a) + multiset(b)
    ensures AllHave(Merge(fields, a, b), fields)
    decreases |a| + |b|
  {
    hide HasFields, Compare;
    if a != [] && b != [] {
      assert a == [a[0]] + a[1..] && b == [b[0]] + b[1..];
      if Compare(fields, a[0], b[0]) < 0 {
        MergeMultiset(fields, a[1..], b);
      } else {
        MergeMultiset(fields, a, b[1..]);
      }
    }
    forall r | r in Merge(fields, a, b)
      ensures HasFields(r, fields)
    {
      assert r in multiset(Merge(fields, a, b));
      assert r in multiset(a) || r in multiset(b);
    }
  }

  /** `x` may stand before every row of the merge of `a` and `b`. */
  lemma MergeBounded(fields: seq<Str>, a: seq<Row>, b: seq<Row>, x: Row)
    requires AllHave(a, fields) && AllHave(b, fields)
    requires (forall r | r in a :: Before(fields, x, r)) && (forall r | r in b :: Before(fields, x, r))
    ensures forall r | r in Merge(fields, a, b) :: Before(fields, x, r)
  {
    MergeMultiset(fields, a, b);
    forall r | r in Merge(fields, a, b)
      ensures Before(fields, x, r)
    {
      assert r in multiset(Merge(fields, a, b));
    }
  }

  lemma SortedCons(fields: seq<Str>, x: Row, rows: seq<Row>)
    requires Sorted(fields, rows) && forall r | r in rows :: Before(fields, x, r)
    ensures Sorted(fields, [x] + rows)
  {}

  /** Everything after the head of a sorted run is bounded by what the head is bounded by. */
  lemma HeadBounds(fields: seq<Str>, x: Row, rows: seq<Row>)
    requires rows != [] && Sorted(fields, rows) && Before(fields, x, rows[0])
    ensures forall r | r in rows :: Before(fields, x, r)
  {
    forall k | 0 <= k < |rows|
      ensures Before(fields, x, rows[k])
    {
      if k > 0 {
        BeforeTransitive(fields, x, rows[0], rows[k]);
      }
    }
  }

  lemma {:induction false} MergeSorted(fields: seq<Str>, a: seq<Row>, b: seq<Row>)
    requires AllHave(a, fields) && AllHave(b, fields) && Sorted(fields, a) && Sorted(fields, b)
    ensures Sorted(fields, Merge(fields, a, b))
    decreases |a| + |b|
  {
    hide HasFields, Compare;
    if a != [] && b != [] {
      CompareSwaps(fields, a[0], b[0]);
      assert forall r | r in a[1..] :: Before(fields, a[0], r);
      assert forall r | r in b[1..] :: Before(fields, b[0], r);
      if Compare(fields, a[0], b[0]) < 0 {
        MergeSorted(fields, a[1..], b);
        HeadBounds(fields, a[0], b);
        MergeBounded(fields, a[1..], b, a[0]);
        SortedCons(fields, a[0], Merge(fields, a[1..], b));
      } else {
        MergeSorted(fields, a, b[1..]);
        HeadBounds(fields, b[0], a);
        MergeBounded(fields, a, b[1..], b[0]);
        SortedCons(fields, b[0], Merge(fields, a, b[1..]));
      }
    }
  }

  // ---------------------------------------------------------------------------------------------
  // Runs
  // ---------------------------------------------------------------------------------------------

  lemma {:induction false} UnionAppend(a: seq<seq<Row>>, b: seq<seq<Row>>)
    ensures Union(a + b) == Union(a) + Union(b)
  {
    if b == [] {
      assert a + b == a;
    } else {
      assert (a + b)[..|a + b| - 1] == a + b[..|b| - 1];
      UnionAppend(a, b[..|b| - 1]);
    }
  }

  lemma UnionOne(r: seq<Row>)
    ensures Union([r]) == multiset(r)
  {
    assert [r][..0] == [];
  }

  /** What the runs of a split input are: sorted, not empty, and together all rows; the last row ends the last run. */
  ghost predicate GoodRuns(fields: seq<Str>, rows: seq<Row>, runs: seq<seq<Row>>) {
    && RunsHave(runs, fields) && AllSorted(fields, runs)
    && (forall r | r in runs :: r != [])
    && Union(runs) == multiset(rows)
    && (rows == [] <==> runs == [])
    && (rows != [] ==> var last := runs[|runs| - 1]; last != [] && last[|last| - 1] == rows[|rows| - 1])
  }

  lemma RowMembers(rows: seq<Row>, n: nat, fields: seq<Str>)
    requires n < |rows| && AllHave(rows, fields)
    ensures AllHave(rows[..n], fields) && HasFields(rows[n], fields)
    ensures multiset(rows[..n + 1]) == multiset(rows[..n]) + multiset{rows[n]}
  {
    assert rows[..n + 1] == rows[..n] + [rows[n]];
  }

  lemma NewRun(fields: seq<Str>, rows: seq<Row>, runs: seq<seq<Row>>, x: Row)
    requires GoodRuns(fields, rows, runs) && HasFields(x, fields)
    ensures GoodRuns(fields, rows + [x], runs + [[x]])
  {
    hide HasFields, Compare;
    assert (runs + [[x]])[..|runs|] == runs;
  }

  lemma SortedSnoc(fields: seq<Str>, rows: seq<Row>, x: Row)
    requires rows != [] && Sorted(fields, rows) && Before(fields, rows[|rows| - 1], x)
    ensures Sorted(fields, rows + [x])
  {
    hide HasFields, Compare;
    forall k | 0 <= k < |rows|
      ensures Before(fields, rows[k], x)
    {
      if k < |rows| - 1 {
        BeforeTransitive(fields, rows[k], rows[|rows| - 1], x);
      }
    }
  }

  lemma LongerUnion(runs: seq<seq<Row>>, x: Row)
    requires runs != []
    ensures var n := |runs| - 1; Union(runs[..n] + [runs[n] + [x]]) == Union(runs) + multiset{x}
  {
    var n := |runs| - 1;
    assert (runs[..n] + [runs[n] + [x]])[..n] == runs[..n];
  }

  lemma LongerRun(fields: seq<Str>, rows: seq<Row>, runs: seq<seq<Row>>, x: Row)
    requires rows != [] && GoodRuns(fields, rows, runs) && HasFields(x, fields)
    requires HasFields(rows[|rows| - 1], fields) && Compare(fields, x, rows[|rows| - 1]) >= 0
    ensures var n := |runs| - 1; GoodRuns(fields, rows + [x], runs[..n] + [runs[n] + [x]])
  {
    hide HasFields, Compare, Sorted, Union;
    var n := |runs| - 1;
    var last := runs[n];
    var runs' := runs[..n] + [last + [x]];
    assert last in runs;
    CompareSwaps(fields, x, rows[|rows| - 1]);
    SortedSnoc(fields, last, x);
    LongerUnion(runs, x);
    forall r | r in runs'
      ensures AllHave(r, fields) && Sorted(fields, r) && r != []
    {
      assert r == last + [x] || r in runs;
    }
  }

  lemma NoRuns(fields: seq<Str>)
    ensures GoodRuns(fields, [], [])
  {}

  lemma LastRun(fields: seq<Str>, rows: seq<Row>, runs: seq<seq<Row>>)
    requires GoodRuns(fields, rows, runs)
    ensures rows == [] <==> runs == []
  {}

  lemma {:induction false} SplitGood(fields: seq<Str>, rows: seq<Row>)
    requires AllHave(rows, fields)
    ensures GoodRuns(fields, rows, SplitRuns(fields, rows))
  {
    hide HasFields, Compare, Sorted, Union, GoodRuns;
    if rows == [] {
      NoRuns(fields);
    }
    if rows != [] {
      var n := |rows| - 1;
      RowMembers(rows, n, fields);
      var runs := SplitRuns(fields, rows[..n]);
      SplitGood(fields, rows[..n]);
      LastRun(fields, rows[..n], runs);
      assert rows == rows[..n] + [rows[n]];
      if n == 0 {
        NewRun(fields, rows[..n], runs, rows[n]);
        assert [] + [[rows[n]]] == [rows];
      } else if runs == [] || Compare(fields, rows[n], rows[n - 1]) < 0 {
        NewRun(fields, rows[..n], runs, rows[n]);
      } else {
        LongerRun(fields, rows[..n], runs, rows[n]);
      }
    }
  }

  function Joined(runs: seq<seq<Row>>): seq<Row> {
    if runs == [] then [] else Joined(runs[..|runs| - 1]) + runs[|runs| - 1]
  }

  /** The next run begins with a row that is smaller than the last one of the run. */
  ghost predicate CutBetween(fields: seq<Str>, run: seq<Row>, next: seq<Row>) {
    && run != [] && next != [] && HasFields(run[|run| - 1], fields) && HasFields(next[0], fields)
    && FirstSmaller(fields, next[0], run[|run| - 1])
  }

  ghost predicate CutAtDescents(fields: seq<Str>, runs: seq<seq<Row>>) {
    forall k | 0 < k < |runs| :: CutBetween(fields, runs[k - 1], runs[k])
  }

  lemma JoinedSnoc(runs: seq<seq<Row>>, run: seq<Row>)
    ensures Joined(runs + [run]) == Joined(runs) + run
  {
    assert (runs + [run])[..|runs|] == runs;
  }

  lemma LongerJoined(runs: seq<seq<Row>>, x: Row)
    requires runs != []
    ensures Joined(runs + [[x]]) == Joined(runs) + [x]
    ensures var n := |runs| - 1; Joined(runs[..n] + [runs[n] + [x]]) == Joined(runs) + [x]
  {
    var n := |runs| - 1;
    JoinedSnoc(runs, [x]);
    JoinedSnoc(runs[..n], runs[n] + [x]);
  }

  /** A run ends with this row. */
  predicate EndsWith(run: seq<Row>, r: Row) {
    run != [] && run[|run| - 1] == r
  }

  lemma CutMore(fields: seq<Str>, runs: seq<seq<Row>>, r: Row, x: Row)
    requires CutAtDescents(fields, runs) && runs != [] && EndsWith(runs[|runs| - 1], r)
    requires HasFields(r, fields) && HasFields(x, fields)
    ensures FirstSmaller(fields, x, r) ==> CutAtDescents(fields, runs + [[x]])
    ensures var n := |runs| - 1; CutAtDescents(fields, runs[..n] + [runs[n] + [x]])
  {
    hide HasFields, FirstSmaller;
    var n := |runs| - 1;
    var longer := runs[..n] + [runs[n] + [x]];
    forall k | 0 < k < |longer|
      ensures CutBetween(fields, longer[k - 1], longer[k])
    {
      assert CutBetween(fields, runs[k - 1], runs[k]);
    }
    var more := runs + [[x]];
    forall k | 0 < k < |more| && FirstSmaller(fields, x, r)
      ensures CutBetween(fields, more[k - 1], more[k])
    {
      assert k < |runs| ==> CutBetween(fields, runs[k - 1], runs[k]);
    }
  }

  lemma RunsEnd(fields: seq<Str>, rows: seq<Row>, runs: seq<seq<Row>>)
    requires GoodRuns(fields, rows, runs) && rows != []
    ensures runs != [] && EndsWith(runs[|runs| - 1], rows[|rows| - 1])
  {}

  /** The runs, one behind the other, are the input in its order. */
  lemma {:induction false} SplitJoined(fields: seq<Str>, rows: seq<Row>)
    requires AllHave(rows, fields)
    ensures Joined(SplitRuns(fields, rows)) == rows
  {
    hide HasFields, Compare, EndsWith, GoodRuns;
    if |rows| > 1 {
      var n := |rows| - 1;
      var runs := SplitRuns(fields, rows[..n]);
      SplitStep(fields, rows);
      hide SplitRuns, Joined, AllHave;
      assert rows == rows[..n] + [rows[n]];
      SplitJoined(fields, rows[..n]);
      SplitGood(fields, rows[..n]);
      RunsEnd(fields, rows[..n], runs);
      LongerJoined(runs, rows[n]);
    } else {
      SplitFew(fields, rows);
    }
  }

  /** The input is cut exactly where a row is smaller than the one in front of it. */
  lemma {:induction false} SplitCuts(fields: seq<Str>, rows: seq<Row>)
    requires AllHave(rows, fields)
    ensures CutAtDescents(fields, SplitRuns(fields, rows))
  {
    hide HasFields, Compare, FirstSmaller, CutAtDescents, EndsWith, GoodRuns;
    if |rows| > 1 {
      var n := |rows| - 1;
      var runs := SplitRuns(fields, rows[..n]);
      SplitStep(fields, rows);
      hide SplitRuns;
      SplitCuts(fields, rows[..n]);
      SplitGood(fields, rows[..n]);
      RunsEnd(fields, rows[..n], runs);
      CompareMeaning(fields, rows[n], rows[n - 1]);
      CutMore(fields, runs, rows[n - 1], rows[n]);
    } else {
      SplitFew(fields, rows);
    }
  }

  lemma SplitFew(fields: seq<Str>, rows: seq<Row>)
    requires AllHave(rows, fields) && |rows| <= 1
    ensures Joined(SplitRuns(fields, rows)) == rows && CutAtDescents(fields, SplitRuns(fields, rows))
  {
    assert [rows][..0] == [];
  }

  lemma SplitStep(fields: seq<Str>, rows: seq<Row>)
    requires AllHave(rows, fields) && |rows| > 1
    ensures var n := |rows| - 1;
            && AllHave(rows[..n], fields) && HasFields(rows[n], fields) && HasFields(rows[n - 1], fields)
            && var runs := SplitRuns(fields, rows[..n]);
            SplitRuns(fields, rows) ==
            if runs == [] || Compare(fields, rows[n], rows[n - 1]) < 0 then runs + [[rows[n]]]
            else runs[..|runs| - 1] + [runs[|runs| - 1] + [rows[n]]]
  {
    hide HasFields, Compare;
  }

  /** A merge iteration merges each run at an even place with the one behind it, if there is one. */
  lemma {:induction false} MergePassAt(fields: seq<Str>, runs: seq<seq<Row>>, k: nat)
    requires RunsHave(runs, fields) && 2 * k < |runs|
    ensures AllHave(runs[2 * k], fields)
    ensures if 2 * k + 1 < |runs|
            then AllHave(runs[2 * k + 1], fields)
                 && MergePass(fields, runs)[k] == Merge(fields, runs[2 * k], runs[2 * k + 1])
            else MergePass(fields, runs)[k] == runs[2 * k]
    decreases |runs|
  {
    hide Merge;
    assert runs[2 * k] in runs && (2 * k + 1 < |runs| ==> runs[2 * k + 1] in runs);
    if k > 0 {
      MergePassAt(fields, runs[2..], k - 1);
      assert runs[2..][2 * (k - 1)] == runs[2 * k];
    }
  }

  /** A merge iteration keeps the rows and the sortedness of the runs. */
  lemma {:induction false} MergePassGood(fields: seq<Str>, runs: seq<seq<Row>>)
    requires RunsHave(runs, fields) && AllSorted(fields, runs)
    ensures var r := MergePass(fields, runs);
            RunsHave(r, fields) && AllSorted(fields, r) && Union(r) == Union(runs)
  {
    if |runs| > 1 {
      MergePassGood(fields, runs[2..]);
      hide HasFields, Compare, Sorted, Merge;
      UnionOne(runs[0]);
      UnionOne(runs[1]);
      UnionOne(Merge(fields, runs[0], runs[1]));
      assert runs[0] in runs && runs[1] in runs;
      MergeMultiset(fields, runs[0], runs[1]);
      MergeSorted(fields, runs[0], runs[1]);
      assert runs == [runs[0], runs[1]] + runs[2..];
      UnionAppend([runs[0], runs[1]], runs[2..]);
      UnionAppend([runs[0]], [runs[1]]);
      assert [runs[0]] + [runs[1]] == [runs[0], runs[1]];
      UnionAppend([Merge(fields, runs[0], runs[1])], MergePass(fields, runs[2..]));
    }
  }

  /** Merge iterations until at most two runs are left. */
  function MergeDown(fields: seq<Str>, runs: seq<seq<Row>>): seq<seq<Row>>
    requires RunsHave(runs, fields) && AllSorted(fields, runs)
    decreases |runs|
  {
    MergePassGood(fields, runs);
    if |runs| <= 2 then runs else MergeDown(fields, MergePass(fields, runs))
  }

  lemma {:induction false} MergeDownGood(fields: seq<Str>, runs: seq<seq<Row>>)
    requires RunsHave(runs, fields) && AllSorted(fields, runs)
    ensures var r := MergeDown(fields, runs);
            |r| <= 2 && RunsHave(r, fields) && AllSorted(fields, r) && Union(r) == Union(runs)
    ensures runs != [] ==> MergeDown(fields, runs) != []
    decreases |runs|
  {
    if |runs| > 2 {
      MergePassGood(fields, runs);
      MergeDownGood(fields, MergePass(fields, runs));
    }
  }

  /** What a scan over at most two runs delivers. */
  function Delivered(fields: seq<Str>, runs: seq<seq<Row>>): seq<Row>
    requires 1 <= |runs| <= 2 && RunsHave(runs, fields)
  {
    if |runs| == 1 then runs[0] else Merge(fields, runs[0], runs[1])
  }

  /** The rows that a sort of a non-empty input delivers. */
  function SortOutput(fields: seq<Str>, rows: seq<Row>): seq<Row>
    requires rows != [] && AllHave(rows, fields)
  {
    SplitGood(fields, rows);
    MergeDownGood(fields, SplitRuns(fields, rows));
    Delivered(fields, MergeDown(fields, SplitRuns(fields, rows)))
  }

  /** External sort: the rows come out sorted, and they are the rows that went in. */
  lemma SortCorrect(fields: seq<Str>, rows: seq<Row>)
    requires rows != [] && AllHave(rows, fields)
    ensures Sorted(fields, SortOutput(fields, rows)) && InSortOrder(fields, SortOutput(fields, rows))
    ensures multiset(SortOutput(fields, rows)) == multiset(rows)
  {
    hide InSortOrder;
    SplitGood(fields, rows);
    var runs := SplitRuns(fields, rows);
    MergeDownGood(fields, runs);
    DeliveredGood(fields, MergeDown(fields, runs));
    SortedMeaning(fields, SortOutput(fields, rows));
  }

  lemma DeliveredGood(fields: seq<Str>, runs: seq<seq<Row>>)
    requires 1 <= |runs| <= 2 && RunsHave(runs, fields) && AllSorted(fields, runs)
    ensures Sorted(fields, Delivered(fields, runs)) && multiset(Delivered(fields, runs)) == Union(runs)
    ensures AllHave(Delivered(fields, runs), fields)
  {
    hide HasFields, Compare, Sorted, Merge;
    assert runs[0] in runs;
    if |runs| == 1 {
      UnionOne(runs[0]);
      assert runs == [runs[0]];
    } else {
      assert runs[1] in runs;
      MergeSorted(fields, runs[0], runs[1]);
      MergeMultiset(fields, runs[0], runs[1]);
      assert runs == [runs[0]] + [runs[1]];
      UnionAppend([runs[0]], [runs[1]]);
      UnionOne(runs[0]);
      UnionOne(runs[1]);
    }
  }
}

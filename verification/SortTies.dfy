/**
 In which order the sort leaves rows that agree on the sort fields: the runs come backwards, each run in its order.
 */
module SortTies {
  import opened Types
  import opened Ordering
  import opened Sorting
  import opened Grouping

  /** The rows of the last run, then those of the run in front of it, and so on. */
  function Backwards(runs: seq<seq<Row>>): seq<Row> {
    if runs == [] then [] else Backwards(runs[1..]) + runs[0]
  }

  lemma {:induction false} BackwardsHave(fields: seq<Str>, runs: seq<seq<Row>>)
    requires RunsHave(runs, fields)
    ensures AllHave(Backwards(runs), fields)
  {
    hide HasFields;
    if runs != [] {
      BackwardsHave(fields, runs[1..]);
      assert runs[0] in runs;
      assert forall r | r in Backwards(runs) :: r in Backwards(runs[1..]) || r in runs[0];
    }
  }

  lemma MergeHas(fields: seq<Str>, a: seq<Row>, b: seq<Row>)
    requires AllHave(a, fields) && AllHave(b, fields)
    ensures AllHave(Merge(fields, a, b), fields)
  {
    MergeMultiset(fields, a, b);
    hide HasFields, Merge;
    forall r | r in Merge(fields, a, b)
      ensures HasFields(r, fields)
    {
      assert r in multiset(Merge(fields, a, b));
      assert r in a || r in b;
    }
  }

  /** A row in front of all others is not in a sorted list that begins with a larger one. */
  lemma NoneAlike(fields: seq<Str>, x: Row, b: seq<Row>)
    requires HasFields(x, fields) && b != [] && AllHave(b, fields) && Sorted(fields, b) && Compare(fields, x, b[0]) < 0
    ensures RowsOf(fields, b, KeyOf(fields, x)) == []
  {
    hide HasFields, Compare, KeyOf, RowsOf;
    forall r | r in b
      ensures KeyOf(fields, r) != KeyOf(fields, x)
    {
      SameKey(fields, r, x);
      CompareSwaps(fields, r, x);
      if Compare(fields, r, x) == 0 {
        var k :| 0 <= k < |b| && b[k] == r;
        CompareSwaps(fields, b[0], b[0]);
        assert Before(fields, b[0], r);
        BeforeTransitive(fields, b[0], r, x);
        CompareSwaps(fields, b[0], x);
        assert false;
      }
    }
    RowsOfNone(fields, b, KeyOf(fields, x));
  }

  lemma RowsOfHead(fields: seq<Str>, x: Row, rows: seq<Row>, key: Row)
    requires HasFields(x, fields) && AllHave(rows, fields)
    ensures AllHave([x] + rows, fields)
    ensures RowsOf(fields, [x] + rows, key) ==
            (if KeyOf(fields, x) == key then [x] else []) + RowsOf(fields, rows, key)
  {
    RowsOfAppend(fields, [x], rows, key);
    assert [x][..0] == [];
  }

  lemma TailSorted(fields: seq<Str>, rows: seq<Row>)
    requires rows != [] && AllHave(rows, fields) && Sorted(fields, rows)
    ensures HasFields(rows[0], fields) && AllHave(rows[1..], fields) && Sorted(fields, rows[1..])
    ensures rows == [rows[0]] + rows[1..]
  {}

  /** Of rows that agree, merging takes those of the second run first. */
  lemma {:induction false} MergeTies(fields: seq<Str>, a: seq<Row>, b: seq<Row>, key: Row)
    requires AllHave(a, fields) && AllHave(b, fields) && Sorted(fields, a) && Sorted(fields, b)
    ensures AllHave(Merge(fields, a, b), fields)
    ensures RowsOf(fields, Merge(fields, a, b), key) == RowsOf(fields, b, key) + RowsOf(fields, a, key)
    decreases |a| + |b|
  {
    hide HasFields, Compare, KeyOf, Sorted, AllHave, RowsOf;
    MergeHas(fields, a, b);
    if a == [] || b == [] {
      RowsOfNone(fields, [], key);
    } else {
      TailSorted(fields, a);
      TailSorted(fields, b);
      if Compare(fields, a[0], b[0]) < 0 {
        MergeTies(fields, a[1..], b, key);
        FirstTies(fields, a[0], a[1..], b, Merge(fields, a[1..], b), key);
      } else {
        MergeTies(fields, a, b[1..], key);
        RowsOfHead(fields, b[0], Merge(fields, a, b[1..]), key);
        RowsOfHead(fields, b[0], b[1..], key);
      }
    }
  }

  /** A smaller row of the first run in front. */
  lemma FirstTies(fields: seq<Str>, x: Row, a: seq<Row>, b: seq<Row>, m: seq<Row>, key: Row)
    requires HasFields(x, fields) && AllHave(a, fields) && AllHave(b, fields) && AllHave(m, fields)
    requires b != [] && Sorted(fields, b) && Compare(fields, x, b[0]) < 0
    requires RowsOf(fields, m, key) == RowsOf(fields, b, key) + RowsOf(fields, a, key)
    ensures AllHave([x] + m, fields) && AllHave([x] + a, fields)
    ensures RowsOf(fields, [x] + m, key) == RowsOf(fields, b, key) + RowsOf(fields, [x] + a, key)
  {
    hide RowsOf;
    RowsOfHead(fields, x, m, key);
    RowsOfHead(fields, x, a, key);
    NoneAlike(fields, x, b);
  }

  /** A merge iteration changes nothing about the order of rows that agree. */
  lemma {:induction false} PassTies(fields: seq<Str>, runs: seq<seq<Row>>, key: Row)
    requires RunsHave(runs, fields) && AllSorted(fields, runs)
    ensures RunsHave(MergePass(fields, runs), fields)
    ensures AllHave(Backwards(runs), fields) && AllHave(Backwards(MergePass(fields, runs)), fields)
    ensures RowsOf(fields, Backwards(MergePass(fields, runs)), key) == RowsOf(fields, Backwards(runs), key)
  {
    hide HasFields, Compare, KeyOf, RowsOf, Merge, Sorted, AllHave;
    MergePassGood(fields, runs);
    BackwardsHave(fields, runs);
    BackwardsHave(fields, MergePass(fields, runs));
    if |runs| > 1 {
      var a, b, rest := runs[0], runs[1], runs[2..];
      assert a in runs && b in runs && runs[1..][1..] == rest;
      PassTies(fields, rest, key);
      MergeTies(fields, a, b, key);
      RowsOfAppend(fields, Backwards(MergePass(fields, rest)), Merge(fields, a, b), key);
      BackwardsHave(fields, runs[1..]);
      RowsOfAppend(fields, Backwards(rest), b, key);
      RowsOfAppend(fields, Backwards(runs[1..]), a, key);
    }
  }

  lemma {:induction false} DownTies(fields: seq<Str>, runs: seq<seq<Row>>, key: Row)
    requires RunsHave(runs, fields) && AllSorted(fields, runs)
    ensures var down := MergeDown(fields, runs);
            && AllHave(Backwards(runs), fields) && AllHave(Backwards(down), fields)
            && RowsOf(fields, Backwards(down), key) == RowsOf(fields, Backwards(runs), key)
    decreases |runs|
  {
    hide HasFields, Compare, KeyOf, RowsOf, MergePass, AllHave;
    BackwardsHave(fields, runs);
    if |runs| > 2 {
      MergePassGood(fields, runs);
      PassTies(fields, runs, key);
      DownTies(fields, MergePass(fields, runs), key);
    }
  }

  /**
   The sort is not stable: of rows that agree on the sort fields those of the last run come first, then those of the run
   in front of it, however many merge iterations there are.
   */
  lemma SortTies(fields: seq<Str>, rows: seq<Row>, key: Row)
    requires rows != [] && AllHave(rows, fields)
    ensures AllHave(SortOutput(fields, rows), fields) && AllHave(Backwards(SplitRuns(fields, rows)), fields)
    ensures RowsOf(fields, SortOutput(fields, rows), key) == RowsOf(fields, Backwards(SplitRuns(fields, rows)), key)
  {
    hide HasFields, Compare, KeyOf, RowsOf, MergeDown, SplitRuns, Merge, AllHave;
    SplitGood(fields, rows);
    var runs := SplitRuns(fields, rows);
    MergeDownGood(fields, runs);
    DownTies(fields, runs, key);
    var down := MergeDown(fields, runs);
    assert down[0] in down;
    if |down| == 1 {
      assert Backwards(down) == down[0];
    } else {
      assert down[1] in down && down[1..] == [down[1]];
      assert Backwards(down[1..]) == down[1];
      MergeTies(fields, down[0], down[1], key);
      RowsOfAppend(fields, down[1], down[0], key);
    }
  }
}

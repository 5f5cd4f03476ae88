/**
 The whole of a sort, from its input to the scan that delivers it, and when it ends with one run.
 */
module SortPlans {
  import opened Types
  import opened Sequences
  import opened Ordering
  import opened Sorting
  import opened Materialize
  import opened ScanRests
  import opened SortScans

  lemma {:induction false} OneRunSplit(fields: seq<Str>, rows: seq<Row>)
    requires AllHave(rows, fields) && rows != []
    ensures SplitRuns(fields, rows) != [] && (|SplitRuns(fields, rows)| == 1 ==> SplitRuns(fields, rows) == [rows])
    ensures Sorted(fields, rows) ==> |SplitRuns(fields, rows)| == 1
  {
    hide Compare;
    SplitGood(fields, rows);
    if |rows| > 1 {
      var n := |rows| - 1;
      OneRunSplit(fields, rows[..n]);
      assert rows == rows[..n] + [rows[n]];
      if Sorted(fields, rows) {
        assert Before(fields, rows[n - 1], rows[n]);
        CompareSwaps(fields, rows[n - 1], rows[n]);
      }
    }
  }

  lemma {:induction false} MergeDownLeaves(fields: seq<Str>, runs: seq<seq<Row>>)
    requires RunsHave(runs, fields) && AllSorted(fields, runs) && |runs| >= 2
    ensures |MergeDown(fields, runs)| == 2
    decreases |runs|
  {
    if |runs| > 2 {
      MergePassGood(fields, runs);
      MergeDownLeaves(fields, MergePass(fields, runs));
    }
  }

  /** The sort of a non-empty input ends with one run exactly if the input is sorted already. */
  lemma OneRunIff(fields: seq<Str>, rows: seq<Row>)
    requires AllHave(rows, fields) && rows != []
    requires RunsHave(SplitRuns(fields, rows), fields) && AllSorted(fields, SplitRuns(fields, rows))
    ensures |MergeDown(fields, SplitRuns(fields, rows))| == 1 <==> Sorted(fields, rows)
    ensures Sorted(fields, rows) ==> MergeDown(fields, SplitRuns(fields, rows)) == [rows]
  {
    var runs := SplitRuns(fields, rows);
    OneRunSplit(fields, rows);
    if |runs| == 1 {
      assert rows in runs;
    } else {
      MergeDownLeaves(fields, runs);
    }
  }

  lemma SortedOutput(fields: seq<Str>, rows: seq<Row>)
    requires AllHave(rows, fields) && rows != []
    ensures AllHave(SortOutput(fields, rows), fields)
  {
    SortCorrect(fields, rows);
    forall r | r in SortOutput(fields, rows)
      ensures HasFields(r, fields)
    {
      assert r in multiset(SortOutput(fields, rows));
    }
  }

  // ---------------------------------------------------------------------------------------------
  // The runs that are read
  // ---------------------------------------------------------------------------------------------

  /** The one or two runs that a non-empty input is merged down to. */
  function LastRuns(fields: seq<Str>, rows: seq<Row>): seq<seq<Row>>
    requires AllHave(rows, fields)
  {
    SplitGood(fields, rows);
    MergeDown(fields, SplitRuns(fields, rows))
  }

  function FirstRun(fields: seq<Str>, rows: seq<Row>): seq<Row>
    requires AllHave(rows, fields)
  {
    var runs := LastRuns(fields, rows);
    if runs == [] then [] else runs[0]
  }

  function SecondRun(fields: seq<Str>, rows: seq<Row>): seq<Row>
    requires AllHave(rows, fields)
  {
    var runs := LastRuns(fields, rows);
    if |runs| < 2 then [] else runs[1]
  }

  /** Both runs are sorted, together they have all rows, and their merge is what the sort delivers. */
  lemma LastRunsGood(fields: seq<Str>, rows: seq<Row>)
    requires AllHave(rows, fields) && rows != []
    ensures 1 <= |LastRuns(fields, rows)| <= 2
    ensures var a, b := FirstRun(fields, rows), SecondRun(fields, rows);
            && AllHave(a, fields) && AllHave(b, fields) && Sorted(fields, a) && Sorted(fields, b)
            && SortOutput(fields, rows) == Merge(fields, a, b) && multiset(a + b) == multiset(rows)
    ensures |LastRuns(fields, rows)| == 1 <==> Sorted(fields, rows)
    ensures Sorted(fields, rows) ==> FirstRun(fields, rows) == rows && SecondRun(fields, rows) == []
  {
    hide HasFields, Compare, Merge, MergeDown, SplitRuns, Sorted, Union;
    SplitGood(fields, rows);
    MergeDownGood(fields, SplitRuns(fields, rows));
    OneRunIff(fields, rows);
    var runs := LastRuns(fields, rows);
    assert runs[0] in runs && (|runs| == 2 ==> runs[1] in runs);
    SortedNone(fields);
    MergeEnd(fields, runs[0], []);
    SortCorrect(fields, rows);
    MergeMultiset(fields, FirstRun(fields, rows), SecondRun(fields, rows));
  }

  lemma SortedNone(fields: seq<Str>)
    ensures Sorted(fields, []) && AllHave([], fields)
  {}

  /** The tables of the runs that a non-empty input is sorted into. */
  method SortedRuns(p: SortPlan, src: TempScan) returns (runs: seq<TempTable>)
    requires p.Valid() && AreRecords(src.table.rows, p.fields) && src.table.rows != []
    modifies src
    ensures AllHave(src.table.rows, p.sortFields)
    ensures 1 <= |runs| <= 2 && Distinct(runs) && forall t | t in runs :: fresh(t) && AllHave(t.rows, p.sortFields)
    ensures runs[0].rows == FirstRun(p.sortFields, src.table.rows)
    ensures SecondRun(p.sortFields, src.table.rows) == if |runs| == 2 then runs[1].rows else []
    ensures |runs| == |LastRuns(p.sortFields, src.table.rows)|
  {
    hide Contents, HasFields, Merge, MergePass, SplitRuns, Sorted, MergeDown, Compare, SortOutput;
    runs := p.Open(src);
    LastRunsGood(p.sortFields, src.table.rows);
    ContentsAt(runs);
  }

  /** `SortPlan::open` on a non-empty input. */
  method OpenSorted(p: SortPlan, src: TempScan) returns (scan: SortScan)
    requires p.Valid() && AreRecords(src.table.rows, p.fields) && src.table.rows != []
    modifies src
    ensures AllHave(src.table.rows, p.sortFields) && scan.sortFields == p.sortFields
    ensures scan.Valid() && scan.taken == 0 && !scan.ended && fresh(scan.Footprint())
    ensures scan.Here() == FirstCursor(scan.Run1(), scan.Run2())
    ensures scan.Run1() == FirstRun(p.sortFields, src.table.rows) && Sorted(p.sortFields, scan.Run1())
    ensures scan.Run2() == SecondRun(p.sortFields, src.table.rows) && Sorted(p.sortFields, scan.Run2())
    ensures AllHave(scan.Output(), p.sortFields)
    ensures scan.Output() == SortOutput(p.sortFields, src.table.rows) && Sorted(p.sortFields, scan.Output())
    ensures InSortOrder(p.sortFields, scan.Output()) && multiset(scan.Output()) == multiset(src.table.rows)
    ensures scan.s2 == null <==> Sorted(p.sortFields, src.table.rows)
  {
    hide HasFields, Merge, Sorted, InSortOrder, Compare, Standing, SortScan.SavedWell;
    hide SortOutput, LastRuns, FirstRun, SecondRun;
    var runs := SortedRuns(p, src);
    assert runs[0] in runs && (|runs| == 2 ==> runs[1] in runs);
    LastRunsGood(p.sortFields, src.table.rows);
    SortCorrect(p.sortFields, src.table.rows);
    SortedOutput(p.sortFields, src.table.rows);
    scan := new SortScan(runs, p.sortFields);
  }
}

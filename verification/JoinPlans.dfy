/**
 `MergeJoinPlan`: both inputs are sorted and then joined. When the pairs that come out are those that the definition of
 the join gives for the unsorted inputs, as a condition on the inputs.
 */
module JoinPlans {
  import opened Types
  import opened Ordering
  import opened Sorting
  import opened Materialize
  import opened ScanRests
  import opened SortScans
  import opened SortPlans
  import opened Joins
  import opened JoinStates
  import opened MergeJoin

  // ---------------------------------------------------------------------------------------------
  // The condition on the inputs
  // ---------------------------------------------------------------------------------------------

  lemma HasOne(rows: seq<Row>, f: Str)
    requires AllHave(rows, [f])
    ensures Has(rows, f)
  {
    forall r | r in rows
      ensures f in r
    {
      assert HasFields(r, [f]);
    }
  }

  /** The runs of the right input can read again every value that two left rows and some right row have. */
  ghost predicate RunsRereadable(left: seq<Row>, right: seq<Row>, f1: Str, f2: Str)
    requires Has(left, f1) && AllHave(right, [f2]) && Has(right, f2)
    requires Has(FirstRun([f2], right), f2) && Has(SecondRun([f2], right), f2)
  {
    forall v | KeyCount(left, f1, v) >= 2 && HasKey(right, f2, v) ::
      GoodValue(FirstRun([f2], right), SecondRun([f2], right), f2, v)
  }

  lemma WithoutOne(rows: seq<Row>, k: int)
    requires 0 <= k < |rows|
    ensures multiset(rows) == multiset(rows[..k] + rows[k + 1..]) + multiset{rows[k]}
  {
    assert rows == rows[..k] + ([rows[k]] + rows[k + 1..]);
  }

  lemma TakeBoth(x: multiset<Row>, y: multiset<Row>, r: Row)
    requires x + multiset{r} == y + multiset{r}
    ensures x == y
  {
    assert x == (x + multiset{r}) - multiset{r};
    assert y == (y + multiset{r}) - multiset{r};
  }

  lemma SameWithout(a: seq<Row>, b: seq<Row>, k: int)
    requires multiset(a) == multiset(b) && a != [] && 0 <= k < |b| && b[k] == a[0]
    ensures multiset(a[1..]) == multiset(b[..k] + b[k + 1..])
  {
    WithoutOne(a, 0);
    WithoutOne(b, k);
    assert a[..0] + a[0 + 1..] == a[1..];
    TakeBoth(multiset(a[1..]), multiset(b[..k] + b[k + 1..]), a[0]);
  }

  lemma NoRows(rows: seq<Row>)
    requires multiset(rows) == multiset([])
    ensures rows == []
  {
    assert |multiset(rows)| == |rows|;
  }

  /** How often a value occurs does not depend on the order. */
  lemma {:induction false} KeyCountBag(a: seq<Row>, b: seq<Row>, f: Str, v: Value)
    requires multiset(a) == multiset(b) && Has(a, f) && Has(b, f)
    ensures KeyCount(a, f, v) == KeyCount(b, f, v)
  {
    if a == [] {
      NoRows(b);
    } else {
      assert a[0] in multiset(a);
      assert a[0] in multiset(b);
      var k :| 0 <= k < |b| && b[k] == a[0];
      var rest := b[..k] + b[k + 1..];
      SameWithout(a, b, k);
      KeyCountBag(a[1..], rest, f, v);
      KeyCountSplit(b, f, v, k);
      KeyCountFrom(b, f, v, k);
      KeyCountAppend(b[..k], b[k + 1..], f, v);
    }
  }

  lemma KeysOfRuns(a: seq<Row>, b: seq<Row>, rows: seq<Row>, f: Str, v: Value)
    requires multiset(a + b) == multiset(rows) && Has(rows, f) && Has(a, f) && Has(b, f)
    ensures HasKey(rows, f, v) <==> HasKey(a, f, v) || HasKey(b, f, v)
  {
    KeyCountAppend(a, b, f, v);
    KeyCountBag(a + b, rows, f, v);
    KeyCountZero(rows, f, v);
    KeyCountZero(a, f, v);
    KeyCountZero(b, f, v);
  }

  /** The condition on the sorted inputs is that on the inputs as they are. */
  lemma SameCondition(x: JoinInput, left: seq<Row>, right: seq<Row>)
    requires x.Ok() && Has(left, x.f1) && AllHave(right, [x.f2]) && Has(right, x.f2)
    requires multiset(x.left) == multiset(left) && multiset(x.a + x.b) == multiset(right)
    requires x.a == FirstRun([x.f2], right) && x.b == SecondRun([x.f2], right)
    ensures Rereadable(x) <==> RunsRereadable(left, right, x.f1, x.f2)
  {
    hide KeyCount, HasKey, GoodValue, FirstRun, SecondRun;
    forall v: Value
      ensures KeyCount(x.left, x.f1, v) == KeyCount(left, x.f1, v)
      ensures Occurs(x, v) <==> HasKey(right, x.f2, v)
    {
      KeyCountBag(x.left, left, x.f1, v);
      KeysOfRuns(x.a, x.b, right, x.f2, v);
    }
  }

  /** A right input that is sorted already is always right. */
  lemma SortedIsEasy(left: seq<Row>, right: seq<Row>, f1: Str, f2: Str)
    requires Has(left, f1) && AllHave(right, [f2]) && Has(right, f2) && right != [] && Sorted([f2], right)
    ensures FirstRun([f2], right) == right && SecondRun([f2], right) == []
    ensures RunsRereadable(left, right, f1, f2)
  {
    hide LastRuns, FirstRun, SecondRun, KeyCount, GoodValue;
    LastRunsGood([f2], right);
    forall v | KeyCount(left, f1, v) >= 2 && HasKey(right, f2, v)
      ensures GoodValue(right, [], f2, v)
    {
      GoodAlone(right, f2, v);
    }
  }

  /** So is a left input without repeated join values. */
  lemma DistinctIsEasy(left: seq<Row>, right: seq<Row>, f1: Str, f2: Str)
    requires Has(left, f1) && AllHave(right, [f2]) && Has(right, f2)
    requires Has(FirstRun([f2], right), f2) && Has(SecondRun([f2], right), f2)
    requires forall i, j | 0 <= i < j < |left| :: left[i][f1] != left[j][f1]
    ensures RunsRereadable(left, right, f1, f2)
  {
    hide FirstRun, SecondRun, HasKey, GoodValue;
    forall v: Value
      ensures KeyCount(left, f1, v) <= 1
    {
      OneEach(left, f1, v);
    }
  }

  lemma {:induction false} OneEach(rows: seq<Row>, f: Str, v: Value)
    requires Has(rows, f) && forall i, j | 0 <= i < j < |rows| :: rows[i][f] != rows[j][f]
    ensures KeyCount(rows, f, v) <= 1
  {
    if rows != [] {
      assert forall m | 0 <= m < |rows| - 1 :: rows[1..][m] == rows[m + 1];
      if rows[0][f] == v {
        KeyCountZero(rows[1..], f, v);
      } else {
        OneEach(rows[1..], f, v);
      }
    }
  }

  // ---------------------------------------------------------------------------------------------
  // The plan
  // ---------------------------------------------------------------------------------------------

  class MergeJoinPlan {
    const p1: SortPlan
    const p2: SortPlan
    const fldname1: Str
    const fldname2: Str

    ghost predicate Valid() {
      p1.Valid() && p2.Valid() && p1.sortFields == [fldname1] && p2.sortFields == [fldname2]
    }

    constructor (fields1: seq<Str>, fields2: seq<Str>, fldname1: Str, fldname2: Str)
      requires fldname1 in fields1 && fldname2 in fields2
      ensures Valid() && p1.fields == fields1 && p2.fields == fields2
      ensures this.fldname1 == fldname1 && this.fldname2 == fldname2
    {
      this.fldname1, this.fldname2 := fldname1, fldname2;
      p1 := new SortPlan(fields1, [fldname1]);
      p2 := new SortPlan(fields2, [fldname2]);
    }

    /** Sorts a non-empty input on its join field. */
    method OpenSort(p: SortPlan, f: Str, src: TempScan) returns (scan: SortScan)
      requires p.Valid() && p.sortFields == [f] && AreRecords(src.table.rows, p.fields) && src.table.rows != []
      modifies src
      ensures AllHave(src.table.rows, [f]) && scan.sortFields == [f]
      ensures scan.Valid() && scan.taken == 0 && !scan.ended && fresh(scan.Footprint())
      ensures scan.Here() == FirstCursor(scan.Run1(), scan.Run2())
      ensures scan.Run1() == FirstRun([f], src.table.rows) && SortedOn(scan.Run1(), f)
      ensures scan.Run2() == SecondRun([f], src.table.rows) && SortedOn(scan.Run2(), f)
      ensures scan.Output() == SortOutput([f], src.table.rows) && SortedOn(scan.Output(), f)
    {
      hide HasFields, Merge, Sorted, Compare, Standing, SortScan.SavedWell, SortOutput, SortedOn, FirstRun, SecondRun;
      scan := OpenSorted(p, src);
      SortedOnField(scan.Output(), f);
      SortedOnField(scan.Run1(), f);
      SortedOnField(scan.Run2(), f);
    }

    method Open(src1: TempScan, src2: TempScan) returns (scan: MergeJoinScan)
      requires Valid() && AreRecords(src1.table.rows, p1.fields) && AreRecords(src2.table.rows, p2.fields)
      requires src1.table.rows != [] && src2.table.rows != []
      modifies src1, src2
      ensures AllHave(src1.table.rows, [fldname1]) && AllHave(src2.table.rows, [fldname2])
      ensures scan.Valid() && scan.out == [] && !scan.ended && scan.joinval.None?
      ensures fresh(scan) && fresh(scan.s1.Footprint()) && fresh(scan.s2.Footprint())
      ensures scan.Input() == JoinInput(SortOutput([fldname1], src1.table.rows), fldname1,
                                        FirstRun([fldname2], src2.table.rows), SecondRun([fldname2], src2.table.rows),
                                        fldname2)
    {
      hide HasFields, Merge, Sorted, Compare, Standing, SortScan.SavedWell, SortOutput, SortedOn, NestedLoops,
           IsRecord, FirstRun, SecondRun;
      var s1 := OpenSort(p1, fldname1, src1);
      var s2 := OpenSort(p2, fldname2, src2);
      scan := new MergeJoinScan(s1, s2, fldname1, fldname2);
    }

    /**
     The whole join, from opening to the end: what comes out is in the order of the join value, and it is the join of
     the inputs as they were exactly if the two runs of the right input can be reread.
     */
    method OpenAndRead(src1: TempScan, src2: TempScan) returns (scan: MergeJoinScan)
      requires Valid() && AreRecords(src1.table.rows, p1.fields) && AreRecords(src2.table.rows, p2.fields)
      requires src1.table.rows != [] && src2.table.rows != []
      modifies src1, src2
      ensures Has(src1.table.rows, fldname1) && Has(src2.table.rows, fldname2)
      ensures AllHave(src2.table.rows, [fldname2])
      ensures Has(FirstRun([fldname2], src2.table.rows), fldname2)
      ensures Has(SecondRun([fldname2], src2.table.rows), fldname2)
      ensures multiset(scan.out) == multiset(NestedLoops(src1.table.rows, src2.table.rows, fldname1, fldname2)) <==>
              RunsRereadable(src1.table.rows, src2.table.rows, fldname1, fldname2)
      ensures InKeyOrder(scan.out, fldname1)
    {
      hide HasFields, Merge, Sorted, Compare, Standing, SortOutput, SortedOn, SortScan.SavedWell, NestedLoops;
      hide IsRecord, FirstRun, SecondRun, Rereadable, RunsRereadable, InKeyOrder;
      scan := Open(src1, src2);
      ghost var x := scan.Input();
      scan.ReadAll();
      PlanMeaning(x, src1.table.rows, src2.table.rows);
    }
  }

  lemma PlanMeaning(x: JoinInput, left: seq<Row>, right: seq<Row>)
    requires left != [] && right != [] && AllHave(left, [x.f1]) && AllHave(right, [x.f2]) && x.Ok()
    requires x.left == SortOutput([x.f1], left)
    requires x.a == FirstRun([x.f2], right) && x.b == SecondRun([x.f2], right)
    ensures Has(left, x.f1) && Has(right, x.f2) && Has(x.left, x.f1) && Has(x.Right(), x.f2)
    ensures Has(FirstRun([x.f2], right), x.f2) && Has(SecondRun([x.f2], right), x.f2)
    ensures multiset(NestedLoops(x.left, x.Right(), x.f1, x.f2)) == multiset(NestedLoops(left, right, x.f1, x.f2))
    ensures Rereadable(x) <==> RunsRereadable(left, right, x.f1, x.f2)
  {
    hide SortOutput, NestedLoops, Compare, Merge, FirstRun, SecondRun, LastRuns, Rereadable, RunsRereadable;
    HasOne(left, x.f1);
    HasOne(right, x.f2);
    SortCorrect([x.f1], left);
    LastRunsGood([x.f2], right);
    JoinIgnoresOrder(x.left, left, x.Right(), right, x.f1, x.f2);
    SameCondition(x, left, right);
  }

  // ---------------------------------------------------------------------------------------------
  // An input that fails
  // ---------------------------------------------------------------------------------------------

  /** A larger and then a smaller row stay in two runs. */
  lemma TwoRuns(f: Str, small: Value, big: Value)
    requires Less(small, big)
    ensures var rows := [map[f := big], map[f := small]];
            AllHave(rows, [f]) && FirstRun([f], rows) == [map[f := big]] && SecondRun([f], rows) == [map[f := small]]
  {
    var rows := [map[f := big], map[f := small]];
    TotalOrder(small, big);
    assert rows[..1] == [map[f := big]];
    assert Compare([f], rows[1], rows[0]) < 0;
    assert SplitRuns([f], rows[..1]) == [rows[..1]];
    assert SplitRuns([f], rows) == [[map[f := big]], [map[f := small]]];
  }

  lemma NotRereadable(f1: Str, f2: Str, small: Value, big: Value)
    requires Less(small, big)
    ensures var left, right := [map[f1 := small], map[f1 := small]], [map[f2 := big], map[f2 := small]];
            && Has(left, f1) && AllHave(right, [f2]) && Has(right, f2)
            && Has(FirstRun([f2], right), f2) && Has(SecondRun([f2], right), f2)
            && !RunsRereadable(left, right, f1, f2)
  {
    hide FirstRun, SecondRun, LastRuns;
    TwoRuns(f2, small, big);
    TotalOrder(small, big);
    TotalOrder(small, small);
    var left: seq<Row> := [map[f1 := small], map[f1 := small]];
    var right: seq<Row> := [map[f2 := big], map[f2 := small]];
    var a, b := right[..1], right[1..];
    assert FirstRun([f2], right) == a && SecondRun([f2], right) == b;
    assert b[0] == right[1] && right[1][f2] == small;
    KeyCountFrom(left, f1, small, 0);
    KeyCountFrom(left, f1, small, 1);
    assert left[0..] == left;
    assert FirstLarger(b[1..], f2, small) == None;
    assert !GoodValue(a, b, f2, small);
  }

  /**
   Two left rows with the smaller value, and the larger and then the smaller value on the right: the plan delivers other
   pairs than the join has.
   */
  method TwoRunJoinGoesWrong(f1: Str, f2: Str, small: Value, big: Value) returns (scan: MergeJoinScan)
    requires Less(small, big)
    ensures var left, right := [map[f1 := small], map[f1 := small]], [map[f2 := big], map[f2 := small]];
            && Has(left, f1) && Has(right, f2)
            && multiset(scan.out) != multiset(NestedLoops(left, right, f1, f2))
  {
    hide NestedLoops, Sorted, Merge, FirstRun, SecondRun, RunsRereadable;
    var plan := new MergeJoinPlan([f1], [f2], f1, f2);
    var t1 := new TempTable();
    var t2 := new TempTable();
    t1.rows, t2.rows := [map[f1 := small], map[f1 := small]], [map[f2 := big], map[f2 := small]];
    var src1 := new TempScan(t1);
    var src2 := new TempScan(t2);
    scan := plan.OpenAndRead(src1, src2);
    NotRereadable(f1, f2, small, big);
  }
}

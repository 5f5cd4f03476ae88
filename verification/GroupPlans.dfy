/**
 `GroupByPlan`: the input is sorted on the group fields and then grouped; what comes out is stated of the input as
 it was.
 */
module GroupPlans {
  import opened Types
  import opened Sequences
  import opened Ordering
  import opened Sorting
  import opened Materialize
  import opened SortScans
  import opened SortPlans
  import opened Grouping
  import opened GroupBy

  // ---------------------------------------------------------------------------------------------
  // Groups of an unsorted input
  // ---------------------------------------------------------------------------------------------

  lemma {:induction false} RowsOfCount(fields: seq<Str>, rows: seq<Row>, key: Row, r: Row)
    requires AllHave(rows, fields)
    ensures multiset(RowsOf(fields, rows, key))[r] ==
            if r in rows && KeyOf(fields, r) == key then multiset(rows)[r] else 0
  {
    hide KeyOf, HasFields;
    if rows != [] {
      var n := |rows| - 1;
      RowsOfCount(fields, rows[..n], key, r);
      CountLast(rows, r);
      assert r in rows[..n] <==> r in multiset(rows[..n]);
      var head, last := RowsOf(fields, rows[..n], key), if KeyOf(fields, rows[n]) == key then [rows[n]] else [];
      assert RowsOf(fields, rows, key) == head + last;
      hide RowsOf;
      assert multiset(head + last)[r] == multiset(head)[r] + multiset(last)[r];
    }
  }

  lemma SameRows(a: seq<Row>, b: seq<Row>, fields: seq<Str>)
    requires multiset(a) == multiset(b) && AllHave(a, fields)
    ensures AllHave(b, fields) && |a| == |b| && forall r :: r in a <==> r in b
  {
    assert |multiset(a)| == |a| && |multiset(b)| == |b|;
    forall r
      ensures r in a <==> r in b
    {
      assert r in a <==> r in multiset(a);
      assert r in b <==> r in multiset(b);
    }
  }

  /** The rows with a key are the same ones, each as often, in whatever order the rows come. */
  lemma RowsOfBag(fields: seq<Str>, a: seq<Row>, b: seq<Row>, key: Row)
    requires multiset(a) == multiset(b) && AllHave(a, fields)
    ensures AllHave(b, fields) && multiset(RowsOf(fields, a, key)) == multiset(RowsOf(fields, b, key))
  {
    hide KeyOf, HasFields, RowsOf;
    SameRows(a, b, fields);
    forall r
      ensures multiset(RowsOf(fields, a, key))[r] == multiset(RowsOf(fields, b, key))[r]
    {
      RowsOfCount(fields, a, key, r);
      RowsOfCount(fields, b, key, r);
    }
  }

  /** Every key has exactly one group, which has exactly the rows with that key, and the sizes add up. */
  ghost predicate AreGroupsOf(fields: seq<Str>, rows: seq<Row>, groups: seq<seq<Row>>) {
    && AllHave(rows, fields) && (forall i | 0 <= i < |groups| :: OneKey(fields, groups[i]))
    && (forall i, j | 0 <= i < j < |groups| :: NewKey(fields, groups[i], groups[j]))
    && (forall i | 0 <= i < |groups| :: HasRowsOf(fields, rows, groups[i]))
    && (forall r | r in rows :: exists i :: 0 <= i < |groups| && HasKey(fields, groups[i], KeyOf(fields, r)))
    && Sizes(groups) == |rows|
  }

  ghost predicate HasRowsOf(fields: seq<Str>, rows: seq<Row>, g: seq<Row>)
    requires AllHave(rows, fields) && OneKey(fields, g)
  {
    multiset(g) == multiset(RowsOf(fields, rows, KeyOf(fields, g[0])))
  }

  lemma SortedGroups(fields: seq<Str>, rows: seq<Row>, sorted: seq<Row>, groups: seq<seq<Row>>)
    requires multiset(sorted) == multiset(rows) && AllHave(rows, fields) && Sorted(fields, sorted)
    requires Grouped(fields, sorted, groups)
    ensures AreGroupsOf(fields, rows, groups)
  {
    hide KeyOf, HasFields, RowsOf, Grouped, Sorted;
    SameRows(rows, sorted, fields);
    GroupByMeaning(fields, sorted, groups);
    forall i | 0 <= i < |groups|
      ensures HasRowsOf(fields, rows, groups[i])
    {
      RowsOfBag(fields, sorted, rows, KeyOf(fields, groups[i][0]));
    }
  }

  // ---------------------------------------------------------------------------------------------
  // The plan
  // ---------------------------------------------------------------------------------------------

  class GroupByPlan {
    const p: SortPlan
    const groupfields: seq<Str>
    const fns: seq<AggFn>

    ghost predicate Valid() {
      && p.Valid() && p.sortFields == groupfields
      && forall fn | fn in fns && fn.MaxFn? :: fn.fldname in p.fields
    }

    constructor (fields: seq<Str>, groupfields: seq<Str>, fns: seq<AggFn>)
      requires forall f | f in groupfields :: f in fields
      requires forall fn | fn in fns && fn.MaxFn? :: fn.fldname in fields
      ensures Valid() && p.fields == fields && this.groupfields == groupfields && this.fns == fns
    {
      this.groupfields, this.fns := groupfields, fns;
      p := new SortPlan(fields, groupfields);
    }

    /** One new object for every aggregation function. */
    method Aggregates() returns (aggfns: seq<Aggregate>)
      ensures |aggfns| == |fns| && Distinct(aggfns)
      ensures forall k | 0 <= k < |fns| :: fresh(aggfns[k]) && aggfns[k].fn == fns[k] && aggfns[k].Shows([])
    {
      aggfns := [];
      for i := 0 to |fns|
        invariant |aggfns| == i && Distinct(aggfns)
        invariant forall k | 0 <= k < i :: fresh(aggfns[k]) && aggfns[k].fn == fns[k] && aggfns[k].Shows([])
      {
        var a := new Aggregate(fns[i]);
        aggfns := aggfns + [a];
      }
    }

    method Open(src: TempScan) returns (scan: GroupByScan)
      requires Valid() && AreRecords(src.table.rows, p.fields) && src.table.rows != []
      modifies src
      ensures scan.Valid() && scan.groups == [] && scan.moregroups && IsMine(scan)
      ensures fresh(scan) && fresh(scan.s.Footprint()) && forall k | 0 <= k < |scan.aggfns| :: fresh(scan.aggfns[k])
      ensures multiset(scan.s.Output()) == multiset(src.table.rows) && AllHave(src.table.rows, groupfields)
    {
      hide HasFields, Merge, Sorted, Compare, Standing, SortScan.SavedWell, SortOutput;
      var s := OpenSorted(p, src);
      SortCorrect(groupfields, src.table.rows);
      var aggfns := Aggregates();
      forall a, r | a in aggfns && r in s.Output()
        ensures a.fn.Reads(r)
      {
        SameRows(src.table.rows, s.Output(), groupfields);
        assert IsRecord(r, p.fields);
        assert a.fn in fns;
      }
      scan := new GroupByScan(s, groupfields, aggfns);
      assert scan.Fns() == fns;
    }

    ghost predicate AreAnswers(g: seq<Row>, fields: seq<Str>, row: seq<Option<Value>>) {
      |row| == |fields| && forall m | 0 <= m < |fields| :: IsAnswer(groupfields, fns, g, fields[m], row[m])
    }

    ghost predicate IsMine(scan: GroupByScan) {
      scan.groupfields == groupfields && scan.Fns() == fns
    }

    /** Reads the fields of the current group. */
    method ReadRow(scan: GroupByScan, fields: seq<Str>) returns (row: seq<Option<Value>>)
      requires scan.Valid() && IsMine(scan)
      ensures AreAnswers(scan.Current(), fields, row)
    {
      hide IsAnswer, GroupByScan.Current, SortScan.Valid, HasFields, Merge, Sorted, Compare, IsMax, Grouped, HasKey;
      row := [];
      for m := 0 to |fields|
        invariant scan.Valid()
        invariant |row| == m && forall i | 0 <= i < m :: IsAnswer(groupfields, fns, scan.Current(), fields[i], row[i])
      {
        var v := scan.GetVal(fields[m]);
        row := row + [v];
      }
    }

    /** Reads all groups. */
    method ReadAll(scan: GroupByScan, fields: seq<Str>) returns (out: seq<seq<Option<Value>>>)
      requires scan.Valid() && IsMine(scan) && scan.groups == []
      modifies scan, scan.s, scan.s.s1, scan.s.s2, scan.aggfns
      ensures Grouped(groupfields, old(scan.s.Output()), scan.groups)
      ensures |out| == |scan.groups| && forall k | 0 <= k < |out| :: AreAnswers(scan.groups[k], fields, out[k])
    {
      hide HasFields, Merge, Sorted, Compare, Standing, SortScan.SavedWell, IsMax, Grouped, HasKey, KeyOf, AreAnswers;
      ghost var sorted := scan.s.Output();
      out := [];
      var more := scan.Next();
      while more
        invariant scan.Valid() && scan.s.Output() == sorted && IsMine(scan)
        invariant if more then |scan.groups| == |out| + 1 else |scan.groups| == |out| && !scan.moregroups
        invariant forall k | 0 <= k < |out| :: AreAnswers(scan.groups[k], fields, out[k])
        decreases |sorted| - |out|, more
      {
        scan.AtMostRows();
        var row := ReadRow(scan, fields);
        out := out + [row];
        more := scan.Next();
      }
    }

    /**
     The whole of a grouping, from opening to the end. `groups` are the groups of the input, and the answers for the
     fields asked for are those for the rows of each group.
     */
    method OpenAndRead(src: TempScan, fields: seq<Str>)
      returns (ghost groups: seq<seq<Row>>, out: seq<seq<Option<Value>>>)
      requires Valid() && AreRecords(src.table.rows, p.fields) && src.table.rows != []
      modifies src
      ensures AreGroupsOf(groupfields, src.table.rows, groups)
      ensures |out| == |groups| && forall k | 0 <= k < |out| :: AreAnswers(groups[k], fields, out[k])
    {
      hide HasFields, Merge, Compare, Standing, SortScan.SavedWell, IsMax, Grouped, HasKey, KeyOf, AreAnswers,
           Sorted, AreGroupsOf;
      var scan := Open(src);
      ghost var sorted := scan.s.Output();
      out := ReadAll(scan, fields);
      groups := scan.groups;
      SortedGroups(groupfields, src.table.rows, sorted, groups);
    }
  }
}

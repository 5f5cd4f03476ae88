/**
 Temporary tables and the classes of external sort, which work through cursors and keep their runs in
 vectors of tables.
 */
module Materialize {
  import opened Types
  import opened Sequences
  import opened Ordering
  import opened Sorting

  /** A temporary table, as the sequence of its records in file order. */
  class TempTable {
    var rows: seq<Row>

    constructor ()
      ensures rows == []
    {
      rows := [];
    }
  }

  /** A cursor on a table. After its end it may be moved, but not advanced again, unless the table is empty. */
  class TempScan {
    const table: TempTable
    var pos: int

    ghost predicate Valid()
      reads this, table
    {
      -1 <= pos <= |table.rows|
    }

    ghost predicate OnRow()
      reads this, table
    {
      0 <= pos < |table.rows|
    }

    ghost function Current(): Row
      requires OnRow()
      reads this, table
    {
      table.rows[pos]
    }

    constructor (table: TempTable)
      ensures this.table == table && pos == -1
    {
      this.table := table;
      pos := -1;
    }

    method BeforeFirst()
      modifies this
      ensures pos == -1
    {
      pos := -1;
    }

    method Next() returns (more: bool)
      requires Valid() && (pos < |table.rows| || table.rows == [])
      modifies this
      ensures pos == (if old(pos) < |table.rows| then old(pos) + 1 else old(pos)) && (more <==> OnRow())
    {
      if pos < |table.rows| {
        pos := pos + 1;
      }
      more := pos < |table.rows|;
    }

    method GetVal(f: Str) returns (v: Value)
      requires OnRow() && f in Current()
      ensures v == Current()[f]
    {
      v := table.rows[pos][f];
    }

    /** A new record behind the current, last one. */
    method Insert()
      requires pos == |table.rows| - 1
      modifies this, table
      ensures table.rows == old(table.rows) + [map[]] && pos == |table.rows| - 1
    {
      table.rows := table.rows + [map[]];
      pos := pos + 1;
    }

    method SetVal(f: Str, v: Value)
      requires OnRow()
      modifies table
      ensures table.rows == old(table.rows)[pos := old(Current())[f := v]]
    {
      table.rows := table.rows[pos := table.rows[pos][f := v]];
    }

    /** Where the cursor stands; nothing if it is not on a record. */
    method GetRid() returns (rid: Option<nat>)
      ensures rid == if OnRow() then Some(pos) else None
    {
      rid := if 0 <= pos < |table.rows| then Some(pos) else None;
    }

    method MoveToRid(rid: nat)
      requires rid <= |table.rows|
      modifies this
      ensures pos == rid
    {
      pos := rid;
    }
  }

  /** `RecordComparator::compare` on two cursors. */
  method CompareScans(fields: seq<Str>, s1: TempScan, s2: TempScan) returns (c: int)
    requires s1.OnRow() && s2.OnRow() && HasFields(s1.Current(), fields) && HasFields(s2.Current(), fields)
    ensures c == Compare(fields, s1.Current(), s2.Current())
    ensures c < 0 <==> FirstSmaller(fields, s1.Current(), s2.Current())
    ensures c == 0 <==> forall f | f in fields :: s1.Current()[f] == s2.Current()[f]
    ensures c > 0 <==> FirstSmaller(fields, s2.Current(), s1.Current())
  {
    hide FirstSmaller;
    CompareMeaning(fields, s1.Current(), s2.Current());
    for k := 0 to |fields|
      invariant Compare(fields, s1.Current(), s2.Current()) == Compare(fields[k..], s1.Current(), s2.Current())
    {
      var val1 := s1.GetVal(fields[k]);
      var val2 := s2.GetVal(fields[k]);
      assert fields[k..][1..] == fields[k + 1..];
      if Greater(val1, val2) {
        return 1;
      }
      if Less(val1, val2) {
        return -1;
      }
    }
    c := 0;
  }

  /** The rows of the tables of a vector. */
  ghost function Contents(tables: seq<TempTable>): seq<seq<Row>>
    reads tables
  {
    if tables == [] then [] else Contents(tables[..|tables| - 1]) + [tables[|tables| - 1].rows]
  }

  lemma {:induction false} ContentsAt(tables: seq<TempTable>)
    ensures |Contents(tables)| == |tables|
    ensures forall k | 0 <= k < |tables| :: Contents(tables)[k] == tables[k].rows
  {
    if tables != [] {
      ContentsAt(tables[..|tables| - 1]);
    }
  }

  lemma NoContents()
    ensures Contents([]) == []
  {}

  lemma ContentsLast(tables: seq<TempTable>)
    requires tables != []
    ensures Contents(tables) == Contents(tables[..|tables| - 1]) + [tables[|tables| - 1].rows]
  {}

  lemma ContentsSnoc(tables: seq<TempTable>, t: TempTable)
    ensures Contents(tables + [t]) == Contents(tables) + [t.rows]
  {
    assert (tables + [t])[..|tables|] == tables;
  }

  lemma {:induction false} InUnion(runs: seq<seq<Row>>, k: nat, r: Row)
    requires k < |runs| && r in runs[k]
    ensures r in Union(runs)
  {
    if k < |runs| - 1 {
      InUnion(runs[..|runs| - 1], k, r);
    }
  }

  lemma {:induction false} UnionMember(runs: seq<seq<Row>>, r: Row)
    requires r in Union(runs)
    ensures exists k :: 0 <= k < |runs| && r in runs[k]
  {
    var n := |runs| - 1;
    if r !in runs[n] {
      UnionMember(runs[..n], r);
      var k :| 0 <= k < n && r in runs[..n][k];
      assert r in runs[k];
    }
  }

  /** Every row has exactly the fields of the schema. */
  predicate IsRecord(r: Row, fields: seq<Str>) {
    r.Keys == set f | f in fields
  }

  ghost predicate AreRecords(rows: seq<Row>, fields: seq<Str>) {
    forall r | r in rows :: IsRecord(r, fields)
  }

  class SortPlan {
    const fields: seq<Str>          // of the schema
    const sortFields: seq<Str>

    ghost predicate Valid() {
      forall f | f in sortFields :: f in fields
    }

    constructor (fields: seq<Str>, sortFields: seq<Str>)
      requires forall f | f in sortFields :: f in fields
      ensures Valid() && this.fields == fields && this.sortFields == sortFields
    {
      this.fields, this.sortFields := fields, sortFields;
    }

    lemma Comparable(rows: seq<Row>)
      requires Valid() && AreRecords(rows, fields)
      ensures AllHave(rows, sortFields)
    {}

    /** Copies the current record, field by field, behind the last one of `dest`, and advances `src`. */
    method Copy(src: TempScan, dest: TempScan) returns (more: bool)
      requires src != dest && src.table != dest.table && src.OnRow() && IsRecord(src.Current(), fields)
      requires dest.pos == |dest.table.rows| - 1
      modifies src, dest, dest.table
      ensures dest.table.rows == old(dest.table.rows) + [old(src.Current())] && dest.pos == |dest.table.rows| - 1
      ensures src.pos == old(src.pos) + 1 && (more <==> src.OnRow())
    {
      dest.Insert();
      ghost var row := src.Current();
      for k := 0 to |fields|
        invariant src.pos == old(src.pos) && dest.pos == |dest.table.rows| - 1
        invariant |dest.table.rows| == |old(dest.table.rows)| + 1
        invariant dest.table.rows[..dest.pos] == old(dest.table.rows)
        invariant dest.Current() == map f | f in fields[..k] :: row[f]
      {
        var v := src.GetVal(fields[k]);
        dest.SetVal(fields[k], v);
        assert fields[..k + 1] == fields[..k] + [fields[k]];
      }
      assert fields[..|fields|] == fields;
      assert dest.Current() == row;
      more := src.Next();
    }

    /** Copies the whole input into runs; a new one is begun at each descent. */
    method SplitIntoRuns(src: TempScan) returns (temps: seq<TempTable>)
      requires Valid() && AreRecords(src.table.rows, fields)
      modifies src
      ensures AllHave(src.table.rows, sortFields)
      ensures Contents(temps) == SplitRuns(sortFields, src.table.rows)
      ensures Distinct(temps) && forall t | t in temps :: fresh(t)
    {
      hide Contents, HasFields, Compare, SplitRuns, Before, Sorted;
      ghost var rows := src.table.rows;
      Comparable(rows);
      temps := [];
      NoContents();
      src.BeforeFirst();
      var more := src.Next();
      if !more {
        NoSplit(sortFields, rows);
        return;
      }
      var currentscan := NewRunScan();
      temps := [currentscan.table];
      more := Copy(src, currentscan);
      NoContents();
      ContentsLast(temps);
      assert temps[..0] == [] && currentscan.table.rows == [rows[0]];
      OneSplit(sortFields, rows);
      while more
        invariant 1 <= src.pos <= |rows| && (more <==> src.pos < |rows|) && src.table.rows == rows
        invariant (forall t | t in temps :: fresh(t)) && fresh(currentscan) && fresh(currentscan.table)
        invariant Splitting(src, temps, currentscan)
        decreases |rows| - src.pos
      {
        temps, currentscan, more := SplitOne(src, temps, currentscan);
      }
      assert rows[..|rows|] == rows;
    }

    /** The rows in front of the cursor have been split into runs; the last run is open at its last row. */
    ghost predicate Splitting(src: TempScan, temps: seq<TempTable>, scan: TempScan)
      reads src, src.table, temps, scan, scan.table
    {
      && 1 <= src.pos <= |src.table.rows|
      && temps != [] && Distinct(temps) && src.table !in temps && scan != src
      && scan.table == temps[|temps| - 1] && scan.pos == |scan.table.rows| - 1
      && scan.OnRow() && scan.Current() == src.table.rows[src.pos - 1]
      && AllHave(src.table.rows[..src.pos], sortFields)
      && Contents(temps) == SplitRuns(sortFields, src.table.rows[..src.pos])
    }

    /** Begins a new run if the next row is smaller than the last one, and copies it. */
    method SplitOne(src: TempScan, temps: seq<TempTable>, scan: TempScan)
      returns (temps': seq<TempTable>, scan': TempScan, more: bool)
      requires Valid() && AreRecords(src.table.rows, fields) && AllHave(src.table.rows, sortFields)
      requires Splitting(src, temps, scan) && src.OnRow()
      modifies src, scan, scan.table
      ensures Splitting(src, temps', scan') && src.pos == old(src.pos) + 1 && (more <==> src.OnRow())
      ensures src.table.rows == old(src.table.rows)
      ensures (forall t | t in temps' :: t in temps || fresh(t)) && (scan' == scan || fresh(scan'))
      ensures scan'.table == scan.table || fresh(scan'.table)
    {
      hide Contents, HasFields, Compare, SplitRuns, Before, Sorted, IsRecord, FirstSmaller;
      ghost var rows, k := src.table.rows, src.pos;
      SplitNext(sortFields, rows, k);
      assert rows[k] in rows && rows[k - 1] in rows;
      assert IsRecord(rows[k], fields) && HasFields(rows[k], sortFields) && HasFields(rows[k - 1], sortFields);
      hide AllHave, AreRecords;
      var c := CompareScans(sortFields, src, scan);
      ContentsLast(temps);
      temps', scan' := RunFor(c, temps, scan);
      ghost var others, head := Contents(temps'[..|temps'| - 1]), scan'.table.rows;
      more := Copy(src, scan');
      assert Contents(temps'[..|temps'| - 1]) == others;
      ContentsLast(temps');
      assert c < 0 ==> head + [rows[k]] == [rows[k]];
    }

    /** The run the next row goes to: a new one if it is smaller than the last row. */
    method RunFor(c: int, temps: seq<TempTable>, scan: TempScan) returns (temps': seq<TempTable>, scan': TempScan)
      requires temps != [] && Distinct(temps) && scan.table == temps[|temps| - 1]
      ensures temps' != [] && Distinct(temps') && scan'.table == temps'[|temps'| - 1]
      ensures c >= 0 ==> temps' == temps && scan' == scan
      ensures c < 0 ==> Contents(temps'[..|temps'| - 1]) == Contents(temps) && scan'.table.rows == []
      ensures c < 0 ==> fresh(scan') && fresh(scan'.table) && scan'.pos == -1
      ensures forall t | t in temps' :: t in temps || t == scan'.table
    {
      hide Contents;
      temps', scan' := temps, scan;
      if c < 0 {
        scan' := NewRunScan();
        temps' := temps + [scan'.table];
        assert temps'[..|temps|] == temps;
      }
    }

    /** A new, empty run, open for appending. */
    method NewRunScan() returns (scan: TempScan)
      ensures fresh(scan) && fresh(scan.table) && scan.pos == -1 && scan.table.rows == []
    {
      var table := new TempTable();
      scan := new TempScan(table);
    }

    /** Merges two runs into a new table. */
    method MergeTwoRuns(p1: TempTable, p2: TempTable) returns (result: TempTable)
      requires Valid() && AreRecords(p1.rows, fields) && AreRecords(p2.rows, fields)
      ensures AllHave(p1.rows, sortFields) && AllHave(p2.rows, sortFields)
      ensures fresh(result) && result.rows == Merge(sortFields, p1.rows, p2.rows)
    {
      hide HasFields, Compare, Merge, IsRecord;
      Comparable(p1.rows);
      Comparable(p2.rows);
      hide AllHave, AreRecords;
      var src1 := new TempScan(p1);
      var src2 := new TempScan(p2);
      var dest := NewRunScan();
      result := dest.table;
      var hasmore1 := src1.Next();
      var hasmore2 := src2.Next();
      ghost var a, b := p1.rows, p2.rows;
      assert a[0..] == a && b[0..] == b;
      while hasmore1 && hasmore2
        invariant Merging(src1, src2, dest, a, b) && p1.rows == a && p2.rows == b
        invariant (hasmore1 <==> src1.OnRow()) && (hasmore2 <==> src2.OnRow())
        decreases |a| - src1.pos + |b| - src2.pos
      {
        hasmore1, hasmore2 := MergeOne(src1, src2, dest);
      }
      FinishMerge(src1, src2, dest, hasmore1, hasmore2);
    }

    /** What is left when one of the two runs is exhausted. */
    method FinishMerge(src1: TempScan, src2: TempScan, dest: TempScan, hasmore1: bool, hasmore2: bool)
      requires src1 != src2 && src1 != dest && src2 != dest
      requires dest.table != src1.table && dest.table != src2.table
      requires AreRecords(src1.table.rows, fields) && AreRecords(src2.table.rows, fields)
      requires Merging(src1, src2, dest, src1.table.rows, src2.table.rows)
      requires (hasmore1 <==> src1.OnRow()) && (hasmore2 <==> src2.OnRow()) && !(hasmore1 && hasmore2)
      modifies src1, src2, dest, dest.table
      ensures dest.table.rows == Merge(sortFields, old(src1.table.rows), old(src2.table.rows))
    {
      hide HasFields, Compare, Merge, IsRecord, AreRecords;
      MergeEnd(sortFields, src1.table.rows[src1.pos..], src2.table.rows[src2.pos..]);
      if hasmore1 {
        CopyRest(src1, dest);
      } else if hasmore2 {
        CopyRest(src2, dest);
      }
    }

    /** What has been merged, followed by the merge of what is left, is the merge of all. */
    ghost predicate Merging(src1: TempScan, src2: TempScan, dest: TempScan, a: seq<Row>, b: seq<Row>)
      reads src1, src2, dest, src1.table, src2.table, dest.table
    {
      && src1.table.rows == a && src2.table.rows == b && AllHave(a, sortFields) && AllHave(b, sortFields)
      && 0 <= src1.pos <= |a| && 0 <= src2.pos <= |b| && dest.pos == |dest.table.rows| - 1
      && dest.table.rows + Merge(sortFields, a[src1.pos..], b[src2.pos..]) == Merge(sortFields, a, b)
    }

    /** Copies the smaller of the two current rows; on a tie the second. */
    method MergeOne(src1: TempScan, src2: TempScan, dest: TempScan) returns (hasmore1: bool, hasmore2: bool)
      requires src1 != src2 && src1 != dest && src2 != dest && src1.OnRow() && src2.OnRow()
      requires dest.table != src1.table && dest.table != src2.table
      requires AreRecords(src1.table.rows, fields) && AreRecords(src2.table.rows, fields)
      requires Merging(src1, src2, dest, src1.table.rows, src2.table.rows)
      modifies src1, src2, dest, dest.table
      ensures Merging(src1, src2, dest, old(src1.table.rows), old(src2.table.rows))
      ensures src1.pos + src2.pos == old(src1.pos + src2.pos) + 1
      ensures (hasmore1 <==> src1.OnRow()) && (hasmore2 <==> src2.OnRow())
    {
      hide HasFields, Compare, Merge, IsRecord;
      ghost var a, b, i, j, out := src1.table.rows, src2.table.rows, src1.pos, src2.pos, dest.table.rows;
      assert a[i] in a && b[j] in b;
      MergeNext(sortFields, a, b, i, j);
      hasmore1, hasmore2 := true, true;
      var c := CompareScans(sortFields, src1, src2);
      if c < 0 {
        hasmore1 := Copy(src1, dest);
        Shift(out, a[i], Merge(sortFields, a[i + 1..], b[j..]));
      } else {
        hasmore2 := Copy(src2, dest);
        Shift(out, b[j], Merge(sortFields, a[i..], b[j + 1..]));
      }
    }

    /** Copies the current row and everything behind it. */
    method CopyRest(src: TempScan, dest: TempScan)
      requires src != dest && src.table != dest.table && src.OnRow() && AreRecords(src.table.rows, fields)
      requires dest.pos == |dest.table.rows| - 1
      modifies src, dest, dest.table
      ensures dest.table.rows == old(dest.table.rows) + old(src.table.rows[src.pos..])
      ensures dest.pos == |dest.table.rows| - 1
    {
      ghost var rows, start := src.table.rows, src.pos;
      var hasmore := true;
      while hasmore
        invariant start <= src.pos <= |rows| && (hasmore <==> src.pos < |rows|)
        invariant dest.pos == |dest.table.rows| - 1
        invariant dest.table.rows == old(dest.table.rows) + rows[start..src.pos]
        decreases |rows| - src.pos
      {
        hasmore := Copy(src, dest);
      }
    }

    /** Merges the runs in pairs, taking them from the front of the vector. */
    method DoAMergeIteration(runs: seq<TempTable>) returns (result: seq<TempTable>)
      requires Valid() && Distinct(runs) && forall t | t in runs :: AreRecords(t.rows, fields)
      ensures RunsHave(Contents(runs), sortFields)
      ensures Contents(result) == MergePass(sortFields, Contents(runs))
      ensures Distinct(result) && forall t | t in result :: t in runs || fresh(t)
    {
      hide Contents, HasFields, Merge, MergePass;
      ghost var all := Contents(runs);
      RunsComparable(runs);
      ContentsAt(runs);
      result := [];
      NoContents();
      var rest := runs;
      ghost var n := 0;
      while |rest| > 1
        invariant n <= |runs| && rest == runs[n..]
        invariant RunsHave(all[n..], sortFields)
        invariant Contents(result) + MergePass(sortFields, all[n..]) == MergePass(sortFields, all)
        invariant Distinct(result) && forall t | t in result :: fresh(t)
      {
        MergePassNext(sortFields, all, n);
        assert rest[0] in runs && rest[1] in runs;
        var merged := MergeTwoRuns(rest[0], rest[1]);
        rest := rest[2..];
        ContentsSnoc(result, merged);
        DistinctSnoc(result, merged);
        result := result + [merged];
        n := n + 2;
      }
      MergePassEnd(sortFields, all[n..]);
      if |rest| == 1 {
        ContentsSnoc(result, rest[0]);
        assert rest[0] in runs && rest[0] !in result;
        DistinctSnoc(result, rest[0]);
        result := result + [rest[0]];
      }
    }

    /** Splits the input and merges runs until at most two are left. */
    method Open(src: TempScan) returns (runs: seq<TempTable>)
      requires Valid() && AreRecords(src.table.rows, fields)
      modifies src
      ensures AllHave(src.table.rows, sortFields)
      ensures RunsHave(SplitRuns(sortFields, src.table.rows), sortFields)
      ensures AllSorted(sortFields, SplitRuns(sortFields, src.table.rows))
      ensures Contents(runs) == MergeDown(sortFields, SplitRuns(sortFields, src.table.rows))
      ensures Distinct(runs) && forall t | t in runs :: fresh(t)
    {
      hide Contents, HasFields, Merge, MergePass, SplitRuns, Sorted;
      runs := SplitIntoRuns(src);
      ghost var all := Contents(runs);
      SplitGood(sortFields, src.table.rows);
      MergeDownGood(sortFields, all);
      ContentsAt(runs);
      RunsAreRecords(src.table.rows, runs);
      while |runs| > 2
        invariant Distinct(runs) && (forall t | t in runs :: fresh(t)) && |runs| == |Contents(runs)|
        invariant RunsHave(Contents(runs), sortFields) && AllSorted(sortFields, Contents(runs))
        invariant MergeDown(sortFields, Contents(runs)) == MergeDown(sortFields, all)
        invariant forall t | t in runs :: AreRecords(t.rows, fields)
        decreases |runs|
      {
        ghost var before := Contents(runs);
        ContentsAt(runs);
        MergePassGood(sortFields, before);
        PassRecords(before);
        runs := DoAMergeIteration(runs);
        ContentsAt(runs);
      }
    }

    /** Runs made of records are made of records. */
    lemma RunsAreRecords(rows: seq<Row>, runs: seq<TempTable>)
      requires AreRecords(rows, fields) && Union(Contents(runs)) == multiset(rows)
      ensures forall t | t in runs :: AreRecords(t.rows, fields)
    {
      ContentsAt(runs);
      forall k, r | 0 <= k < |runs| && r in runs[k].rows
        ensures IsRecord(r, fields)
      {
        InUnion(Contents(runs), k, r);
        assert r in multiset(rows);
      }
    }

    /** A merge iteration makes no new rows. */
    lemma PassRecords(runs: seq<seq<Row>>)
      requires RunsHave(runs, sortFields) && AllSorted(sortFields, runs)
      requires forall r | r in runs :: AreRecords(r, fields)
      ensures forall r | r in MergePass(sortFields, runs) :: AreRecords(r, fields)
    {
      MergePassGood(sortFields, runs);
      var after := MergePass(sortFields, runs);
      forall k, x | 0 <= k < |after| && x in after[k]
        ensures IsRecord(x, fields)
      {
        InUnion(after, k, x);
        UnionMember(runs, x);
        var j :| 0 <= j < |runs| && x in runs[j];
        assert AreRecords(runs[j], fields);
      }
    }

    lemma RunsComparable(runs: seq<TempTable>)
      requires Valid() && forall t | t in runs :: AreRecords(t.rows, fields)
      ensures RunsHave(Contents(runs), sortFields) && |Contents(runs)| == |runs|
    {
      ContentsAt(runs);
      forall k | 0 <= k < |runs|
        ensures AllHave(Contents(runs)[k], sortFields)
      {
        Comparable(runs[k].rows);
      }
    }
  }

  /** The run list after one more row. */
  lemma SplitNext(fields: seq<Str>, rows: seq<Row>, k: nat)
    requires 0 < k < |rows| && AllHave(rows, fields) && AllHave(rows[..k], fields)
    ensures AllHave(rows[..k + 1], fields)
    ensures var runs := SplitRuns(fields, rows[..k]);
            && runs != []
            && SplitRuns(fields, rows[..k + 1]) ==
               if Compare(fields, rows[k], rows[k - 1]) < 0 then runs + [[rows[k]]]
               else runs[..|runs| - 1] + [runs[|runs| - 1] + [rows[k]]]
  {
    assert rows[..k + 1][..k] == rows[..k];
    SplitGood(fields, rows[..k]);
  }

  /** What the merge takes next. */
  lemma MergeNext(fields: seq<Str>, a: seq<Row>, b: seq<Row>, i: nat, j: nat)
    requires i <= |a| && j <= |b| && (i < |a| || j < |b|) && AllHave(a, fields) && AllHave(b, fields)
    ensures Merge(fields, a[i..], b[j..]) ==
            if j == |b| || (i < |a| && Compare(fields, a[i], b[j]) < 0)
            then [a[i]] + Merge(fields, a[i + 1..], b[j..])
            else [b[j]] + Merge(fields, a[i..], b[j + 1..])
  {
    if i < |a| {
      assert a[i..] == [a[i]] + a[i + 1..];
    }
    if j < |b| {
      assert b[j..] == [b[j]] + b[j + 1..];
    }
  }

  lemma NoSplit(fields: seq<Str>, rows: seq<Row>)
    requires rows == []
    ensures AllHave(rows, fields) && SplitRuns(fields, rows) == []
  {}

  lemma OneSplit(fields: seq<Str>, rows: seq<Row>)
    requires rows != [] && AllHave(rows, fields)
    ensures AllHave(rows[..1], fields) && SplitRuns(fields, rows[..1]) == [[rows[0]]]
  {
    assert rows[..1] == [rows[0]];
  }

  lemma Shift<T>(out: seq<T>, x: T, rest: seq<T>)
    ensures out + ([x] + rest) == (out + [x]) + rest
  {}

  lemma MergeEnd(fields: seq<Str>, a: seq<Row>, b: seq<Row>)
    requires AllHave(a, fields) && AllHave(b, fields) && (a == [] || b == [])
    ensures Merge(fields, a, b) == a + b
  {}

  lemma MergePassNext(fields: seq<Str>, all: seq<seq<Row>>, n: nat)
    requires n + 1 < |all| && RunsHave(all[n..], fields)
    ensures AllHave(all[n], fields) && AllHave(all[n + 1], fields) && RunsHave(all[n + 2..], fields)
    ensures MergePass(fields, all[n..]) == [Merge(fields, all[n], all[n + 1])] + MergePass(fields, all[n + 2..])
  {
    var s := all[n..];
    assert s[0] in s && s[1] in s && s[2..] == all[n + 2..];
    assert forall r | r in all[n + 2..] :: r in s;
  }

  lemma MergePassEnd(fields: seq<Str>, runs: seq<seq<Row>>)
    requires |runs| <= 1 && RunsHave(runs, fields)
    ensures MergePass(fields, runs) == runs
  {}
}

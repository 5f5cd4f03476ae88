/**
 `ProductScan`: nested loops over two scans, and the left side that it needs.
 */
module ProductScans {
  import opened Ordering
  import opened Queries
  import opened Materialize

  lemma CrossStep(left: seq<Row>, right: seq<Row>, i: nat)
    requires i < |left|
    ensures Cross(left[..i + 1], right) == Cross(left[..i], right) + CrossOne(left[i], right)
  {
    assert left[..i + 1][..i] == left[..i];
  }

  lemma CrossOneStep(l: Row, right: seq<Row>, j: nat)
    requires j < |right|
    ensures CrossOne(l, right[..j + 1]) == CrossOne(l, right[..j]) + [right[j] + l]
  {
    assert right[..j + 1][..j] == right[..j];
  }

  /** The product row by row: each left row with the right rows in order, and the left value where both have one. */
  lemma {:induction false} CrossAt(left: seq<Row>, right: seq<Row>, i: nat, j: nat)
    requires i < |left| && j < |right|
    ensures |Cross(left, right)| == |left| * |right| && 0 <= i * |right| + j < |left| * |right|
    ensures forall f | f in left[i] || f in right[j] ::
              var r := Cross(left, right)[i * |right| + j];
              f in r && r[f] == if f in left[i] then left[i][f] else right[j][f]
  {
    CrossSize(left, right);
    Places(i, j, |left|, |right|);
    var n := |left| - 1;
    if i < n {
      CrossAt(left[..n], right, i, j);
    } else {
      CrossSize(left[..n], right);
      CrossOneAt(left[n], right, j);
    }
  }

  lemma {:induction false} CrossSize(left: seq<Row>, right: seq<Row>)
    ensures |Cross(left, right)| == |left| * |right|
  {
    if left != [] {
      var n, z := |left| - 1, |right|;
      CrossSize(left[..n], right);
      OneMore(n, z);
    }
  }

  lemma OneMore(n: nat, z: nat)
    ensures (n + 1) * z == n * z + z
  {}

  lemma {:induction false} CrossOneAt(l: Row, right: seq<Row>, j: nat)
    requires j < |right|
    ensures CrossOne(l, right)[j] == right[j] + l
  {
    if j < |right| - 1 {
      CrossOneAt(l, right[..|right| - 1], j);
    }
  }

  lemma Places(i: nat, j: nat, m: nat, n: nat)
    requires i < m && j < n
    ensures i * n + j < m * n && (i < m - 1 ==> i * n + j < (m - 1) * n)
  {
    OneMore(i, n);
    AtMost(i + 1, m, n);
    if i < m - 1 {
      AtMost(i + 1, m - 1, n);
    }
  }

  lemma {:induction false} AtMost(k: nat, m: nat, n: nat)
    requires k <= m
    ensures k * n <= m * n
  {
    if k < m {
      AtMost(k, m - 1, n);
      OneMore(m - 1, n);
    }
  }

  lemma {:induction false} CrossEmpty(left: seq<Row>, right: seq<Row>)
    ensures Cross(left, right) == [] <==> left == [] || right == []
  {
    if left != [] {
      CrossEmpty(left[..|left| - 1], right);
    }
  }

  /** The rows delivered while left row `i` is current and right rows up to `j` have been seen. */
  ghost predicate InRow(left: seq<Row>, right: seq<Row>, out: seq<Row>, i: int, j: int) {
    && 0 <= i < |left| && -1 <= j < |right|
    && out == Cross(left[..i], right) + CrossOne(left[i], right[..j + 1])
  }

  lemma RowStarts(left: seq<Row>, right: seq<Row>, out: seq<Row>, i: int)
    requires 0 <= i < |left| && out == Cross(left[..i], right)
    ensures InRow(left, right, out, i, -1)
  {
    assert right[..0] == [];
  }

  lemma RowGoesOn(left: seq<Row>, right: seq<Row>, out: seq<Row>, i: int, j: int)
    requires InRow(left, right, out, i, j) && j + 1 < |right|
    ensures InRow(left, right, out + [right[j + 1] + left[i]], i, j + 1)
  {
    CrossOneStep(left[i], right, j + 1);
  }

  lemma RowEnds(left: seq<Row>, right: seq<Row>, out: seq<Row>, i: int, j: int)
    requires InRow(left, right, out, i, j) && j + 1 == |right|
    ensures out == Cross(left[..i + 1], right)
  {
    CrossStep(left, right, i);
    assert right[..|right|] == right;
  }

  class ProductScan {
    const s1: TempScan
    const s2: TempScan
    ghost var out: seq<Row>       // the rows delivered so far
    ghost var ended: bool

    ghost predicate Valid()
      reads this, s1, s2, s1.table, s2.table
    {
      && s1 != s2 && s1.table.rows != []
      && (if ended then out == Cross(s1.table.rows, s2.table.rows)
          else InRow(s1.table.rows, s2.table.rows, out, s1.pos, s2.pos))
    }

    /** The result of the first `next` of the left side is not looked at: without a left row the scan is not usable. */
    constructor (s1: TempScan, s2: TempScan)
      requires s1 != s2
      modifies s1, s2
      ensures this.s1 == s1 && this.s2 == s2 && s2.pos == -1 && out == [] && !ended
      ensures if s1.table.rows != [] then Valid() else NoLeftRow()
    {
      this.s1, this.s2, out, ended := s1, s2, [], false;
      new;
      BeforeFirst();
    }

    method BeforeFirst()
      requires s1 != s2
      modifies this, s1, s2
      ensures s2.pos == -1 && out == [] && !ended
      ensures if s1.table.rows != [] then Valid() else NoLeftRow()
    {
      s1.BeforeFirst();
      var _ := s1.Next();
      s2.BeforeFirst();
      out, ended := [], false;
      if s1.table.rows != [] {
        RowStarts(s1.table.rows, s2.table.rows, [], 0);
      }
    }

    /** An empty left side. */
    ghost predicate NoLeftRow()
      reads this, s1, s2, s1.table, s2.table
    {
      && s1 != s2 && s1.table.rows == [] && s1.Valid()
      && -1 <= s2.pos < if s2.table.rows == [] then 1 else |s2.table.rows|
    }

    /**
     Goes on to the next row; when it returns false, all rows of the product have come, in nested-loop order. With an
     empty left side the calls return true all the same, as long as there are right rows.
     */
    method Next() returns (more: bool)
      requires (Valid() && !ended) || NoLeftRow()
      modifies this, s1, s2
      ensures old(NoLeftRow()) ==> NoLeftRow() && (more <==> old(s2.pos) + 1 < |s2.table.rows|)
      ensures old(NoLeftRow()) ==> s2.pos == if more then old(s2.pos) + 1 else 0
      ensures old(Valid()) ==> Valid() && (more <==> !ended)
      ensures old(Valid()) && more ==> s1.OnRow() && s2.OnRow() && out == old(out) + [s2.Current() + s1.Current()]
      ensures old(Valid()) && !more ==> out == old(out) == Cross(s1.table.rows, s2.table.rows)
    {
      more := s2.Next();
      if more {
        Deliver(s1.pos, s2.pos - 1);
        return true;
      }
      LeaveRow(s2.pos - 1);
      s2.BeforeFirst();
      more := s2.Next();
      if more {
        more := s1.Next();
      }
      if more {
        Deliver(s1.pos, -1);
      } else {
        ended := true;
      }
    }

    /** The pair of current rows is delivered. */
    ghost method Deliver(i: int, j: int)
      requires s2.OnRow() && s2.pos == j + 1 && i == s1.pos
      requires s1.OnRow() ==> InRow(s1.table.rows, s2.table.rows, out, i, j)
      modifies `out
      ensures s1.OnRow() ==> InRow(s1.table.rows, s2.table.rows, out, i, j + 1)
      ensures s1.OnRow() ==> out == old(out) + [s2.Current() + s1.Current()]
    {
      hide Cross, CrossOne;
      if s1.OnRow() {
        RowGoesOn(s1.table.rows, s2.table.rows, out, i, j);
        out := out + [s2.Current() + s1.Current()];
      }
    }

    /** The right rows are exhausted for the current left row. */
    lemma LeaveRow(j: int)
      requires s1.OnRow() ==> InRow(s1.table.rows, s2.table.rows, out, s1.pos, j) && j + 1 == |s2.table.rows|
      ensures s1.OnRow() && s1.pos + 1 < |s1.table.rows| ==> InRow(s1.table.rows, s2.table.rows, out, s1.pos + 1, -1)
      ensures s1.OnRow() && (s1.pos + 1 == |s1.table.rows| || s2.table.rows == []) ==>
                out == Cross(s1.table.rows, s2.table.rows)
    {
      if s1.OnRow() {
        var left, right, i := s1.table.rows, s2.table.rows, s1.pos;
        RowEnds(left, right, out, i, j);
        CrossEmpty(left, right);
        CrossEmpty(left[..i + 1], right);
        hide Cross, CrossOne;
        if i + 1 < |left| {
          RowStarts(left, right, out, i + 1);
        } else {
          assert left[..i + 1] == left;
        }
      }
    }
  }

  /**
   What the first call of `next` says: there is a row exactly if the right side has one. That is right exactly if the
   left side is not empty, or the right side is.
   */
  method FirstNext(left: TempScan, right: TempScan) returns (more: bool)
    requires left != right
    modifies left, right
    ensures more <==> right.table.rows != []
    ensures (more <==> Cross(left.table.rows, right.table.rows) != []) <==>
            left.table.rows != [] || right.table.rows == []
  {
    hide InRow;
    CrossEmpty(left.table.rows, right.table.rows);
    var scan := new ProductScan(left, right);
    more := scan.Next();
  }
}

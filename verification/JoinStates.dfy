/**
 Where a merge join can stand when its right side is a scan of two runs that goes back to the beginning of a group
 without its current run and flags. Either everything so far is right, or a pair of different values has been
 delivered, or so many pairs have been left out that the join cannot become complete any more.
 */
module JoinStates {
  import opened Types
  import opened Ordering
  import opened Joins
  import opened ScanRests

  /** The left rows in their order, the two sorted runs of the right side, and the join fields. */
  datatype JoinInput = JoinInput(left: seq<Row>, f1: Str, a: seq<Row>, b: seq<Row>, f2: Str)
  {
    ghost predicate Ok() {
      && SortedOn(left, f1) && SortedOn(a, f2) && SortedOn(b, f2)
      && AllHave(a, [f2]) && AllHave(b, [f2])
    }

    function Right(): seq<Row> {
      a + b
    }

    function Key(k: int): Value
      requires 0 <= k < |left| && Has(left, f1)
    {
      assert left[k] in left;
      left[k][f1]
    }

    function KeyA(k: int): Value
      requires 0 <= k < |a| && Has(a, f2)
    {
      assert a[k] in a;
      a[k][f2]
    }

    function KeyB(k: int): Value
      requires 0 <= k < |b| && Has(b, f2)
    {
      assert b[k] in b;
      b[k][f2]
    }

    predicate OnRow(c: Cursor) {
      (c.idx == 1 && 0 <= c.i < |a|) || (c.idx == 2 && 0 <= c.j < |b|)
    }

    function RowAt(c: Cursor): Row
      requires OnRow(c)
    {
      if c.idx == 1 then a[c.i] else b[c.j]
    }

    function KeyAt(c: Cursor): Value
      requires OnRow(c) && Has(a, f2) && Has(b, f2)
    {
      if c.idx == 1 then KeyA(c.i) else KeyB(c.j)
    }

    /** The number of right rows with a value. */
    function Matches(v: Value): nat
      requires Has(a, f2) && Has(b, f2)
    {
      KeyCount(a, f2, v) + KeyCount(b, f2, v)
    }

    /** The pairs of the first `k` left rows. */
    function Done(k: int): seq<Pair>
      requires Has(left, f1) && Has(a, f2) && Has(b, f2) && 0 <= k <= |left|
    {
      NestedLoops(left[..k], Right(), f1, f2)
    }
  }

  // ---------------------------------------------------------------------------------------------
  // When a group can be read again
  // ---------------------------------------------------------------------------------------------

  predicate HasKey(rows: seq<Row>, f: Str, v: Value)
    requires Has(rows, f)
  {
    exists m :: 0 <= m < |rows| && rows[m][f] == v
  }

  /** The first value of the list that is larger. */
  function FirstLarger(rows: seq<Row>, f: Str, v: Value): Option<Value>
    requires Has(rows, f)
  {
    if rows == [] then None
    else if Less(v, rows[0][f]) then Some(rows[0][f])
    else FirstLarger(rows[1..], f, v)
  }

  /**
   The scan of the two runs comes out of the group of value `v` with the fields that going back to the group needs.
   With `v` in both runs, both flags have to be up, so both runs must go on with larger values. With `v` in one run,
   that run has to be current then, so it must go on with the smaller one of the larger values, or both runs must be at
   their end.
   */
  predicate GoodValue(a: seq<Row>, b: seq<Row>, f: Str, v: Value)
    requires Has(a, f) && Has(b, f)
  {
    var x, y := FirstLarger(a, f, v), FirstLarger(b, f, v);
    if HasKey(a, f, v) && HasKey(b, f, v) then x.Some? && y.Some?
    else if HasKey(a, f, v) then (x.None? && y.None?) || (x.Some? && (y.None? || Less(x.value, y.value)))
    else if HasKey(b, f, v) then (x.None? && y.None?) || (y.Some? && (x.None? || LessEq(y.value, x.value)))
    else true
  }

  predicate Occurs(x: JoinInput, v: Value)
    requires Has(x.a, x.f2) && Has(x.b, x.f2)
  {
    HasKey(x.a, x.f2, v) || HasKey(x.b, x.f2, v)
  }

  /** Every value that two left rows and some right row have can be read again. */
  ghost predicate Rereadable(x: JoinInput)
    requires Has(x.left, x.f1) && Has(x.a, x.f2) && Has(x.b, x.f2)
  {
    forall v | KeyCount(x.left, x.f1, v) >= 2 && Occurs(x, v) :: GoodValue(x.a, x.b, x.f2, v)
  }

  /** The same for the left rows up to `n` that have the value of the row in front of them. */
  ghost predicate Judged(x: JoinInput, n: int)
    requires x.Ok()
  {
    forall k | 0 < k <= n && k < |x.left| && x.Key(k - 1) == x.Key(k) && Occurs(x, x.Key(k)) ::
      GoodValue(x.a, x.b, x.f2, x.Key(k))
  }

  // ---------------------------------------------------------------------------------------------
  // Where the join stands
  // ---------------------------------------------------------------------------------------------

  /** The same pairs, each as often; with one run also in the same order. */
  ghost predicate Same(x: JoinInput, out: seq<Pair>, pairs: seq<Pair>) {
    multiset(out) == multiset(pairs) && (x.b == [] ==> out == pairs)
  }

  /** A pair of different values. */
  predicate WrongPair(x: JoinInput, p: Pair) {
    !(x.f1 in p.0 && x.f2 in p.1 && p.0[x.f1] == p.1[x.f2])
  }

  ghost predicate Wrong(x: JoinInput, out: seq<Pair>) {
    exists p | p in out :: WrongPair(x, p)
  }

  /** Rows in front of the places are smaller than `v`, rows from there on are not. */
  ghost predicate Frontier(x: JoinInput, si: int, sj: int, v: Value)
    requires x.Ok()
  {
    && 0 <= si <= |x.a| && 0 <= sj <= |x.b|
    && (forall m | 0 <= m < si :: Less(x.KeyA(m), v)) && (forall m | 0 <= m < sj :: Less(x.KeyB(m), v))
    && (forall m | si <= m < |x.a| :: LessEq(v, x.KeyA(m))) && (forall m | sj <= m < |x.b| :: LessEq(v, x.KeyB(m)))
  }

  /** The rows between the places, at least one, have the value. */
  ghost predicate Between(x: JoinInput, si: int, sj: int, i: int, j: int, v: Value)
    requires x.Ok()
  {
    && 0 <= si <= i <= |x.a| && 0 <= sj <= j <= |x.b| && (si < i || sj < j)
    && (forall m | si <= m < i :: x.KeyA(m) == v) && (forall m | sj <= m < j :: x.KeyB(m) == v)
  }

  /** The pairs of left row `li` with the right rows in front of the places. */
  function Part(x: JoinInput, li: int, i: int, j: int): seq<Pair>
    requires Has(x.left, x.f1) && Has(x.a, x.f2) && Has(x.b, x.f2)
    requires 0 <= li < |x.left| && 0 <= i <= |x.a| && 0 <= j <= |x.b|
  {
    assert x.left[li] in x.left;
    PairsWith(x.left[li], x.a[..i], x.f1, x.f2) + PairsWith(x.left[li], x.b[..j], x.f1, x.f2)
  }

  /** The flags are exact, and the smaller head is the current row if there is one. */
  predicate Fresh(x: JoinInput, c: Cursor)
    requires AllHave(x.a, [x.f2]) && AllHave(x.b, [x.f2])
  {
    && InBounds(x.a, x.b, c)
    && (c.more1 <==> c.i < |x.a|) && (c.more2 <==> c.j < |x.b|)
    && c == Enter([x.f2], x.a, x.b, c)
  }

  /** Left row `li` has been joined with the right rows of its value that the scan has passed. */
  ghost predicate CleanMoved(x: JoinInput, out: seq<Pair>, li: int, c: Cursor, si: int, sj: int)
    requires x.Ok()
  {
    && 0 <= li < |x.left| && Fresh(x, c) && Frontier(x, si, sj, x.Key(li)) && Between(x, si, sj, c.i, c.j, x.Key(li))
    && (!c.more1 && !c.more2 ==> (c.idx == 1 && si < c.i) || (c.idx == 2 && sj < c.j))
    && Same(x, out, x.Done(li) + Part(x, li, c.i, c.j))
    && Judged(x, li)
  }

  /** The same with the current row, the last one delivered. */
  ghost predicate CleanGroup(x: JoinInput, out: seq<Pair>, li: int, c: Cursor, si: int, sj: int)
    requires x.Ok()
  {
    && 0 <= li < |x.left| && CanPass(x.a, x.b, c) && c.idx > 0
    && (c.idx == 1 ==> (c.more2 <==> c.j < |x.b|)) && (c.idx == 2 ==> (c.more1 <==> c.i < |x.a|))
    && Frontier(x, si, sj, x.Key(li)) && si <= c.i && sj <= c.j
    && var p := Pass(x.a, x.b, c);
    && Between(x, si, sj, p.i, p.j, x.Key(li))
    && Same(x, out, x.Done(li) + Part(x, li, p.i, p.j))
    && Judged(x, li)
  }

  /** Left rows before `li` are joined, and right rows that the scan has passed are too small for the others. */
  ghost predicate CleanSearch(x: JoinInput, out: seq<Pair>, li: int, c: Cursor)
    requires x.Ok()
  {
    && 0 <= li <= |x.left| && Fresh(x, c)
    && (forall m, n | 0 <= m < c.i && li <= n < |x.left| :: Less(x.KeyA(m), x.Key(n)))
    && (forall m, n | 0 <= m < c.j && li <= n < |x.left| :: Less(x.KeyB(m), x.Key(n)))
    && Same(x, out, x.Done(li)) && Judged(x, li)
  }

  /** The number of rows with a value that may still come, when only runs whose flag is up are read. */
  function InReach(x: JoinInput, c: Cursor, v: Value): nat
    requires Has(x.a, x.f2) && Has(x.b, x.f2) && InBounds(x.a, x.b, c)
  {
    (if c.more1 then KeyCount(x.a[c.i..], x.f2, v) else 0) + (if c.more2 then KeyCount(x.b[c.j..], x.f2, v) else 0)
  }

  /** A wrong pair has been delivered, or fewer pairs can be reached for the left rows up to `li` than the join has. */
  ghost predicate Spoilt(x: JoinInput, out: seq<Pair>, li: int, c: Cursor)
    requires x.Ok() && 0 <= li < |x.left| && InBounds(x.a, x.b, c)
  {
    Wrong(x, out) || |out| + InReach(x, c, x.Key(li)) < |x.Done(li + 1)|
  }

  // ---------------------------------------------------------------------------------------------
  // Facts about the input
  // ---------------------------------------------------------------------------------------------

  lemma RightHas(x: JoinInput)
    requires Has(x.a, x.f2) && Has(x.b, x.f2)
    ensures Has(x.Right(), x.f2)
  {}

  lemma LeftKey(x: JoinInput, li: int)
    requires x.Ok() && 0 <= li < |x.left|
    ensures x.f1 in x.left[li] && x.left[li][x.f1] == x.Key(li) && HasKey(x.left, x.f1, x.Key(li))
  {
    assert x.left[li] in x.left;
  }

  /** One more left row. */
  lemma DoneStep(x: JoinInput, li: int)
    requires x.Ok() && 0 <= li < |x.left|
    ensures x.Done(li + 1) == x.Done(li) + Part(x, li, |x.a|, |x.b|)
    ensures |x.Done(li + 1)| == |x.Done(li)| + x.Matches(x.Key(li))
  {
    assert x.left[li] in x.left;
    LoopsStep(x.left, x.Right(), x.f1, x.f2, li);
    PairsAppend(x.left[li], x.a, x.b, x.f1, x.f2);
    PairsLength(x.left[li], x.a, x.f1, x.f2);
    PairsLength(x.left[li], x.b, x.f1, x.f2);
    assert x.a[..|x.a|] == x.a && x.b[..|x.b|] == x.b;
  }

  lemma DoneAll(x: JoinInput)
    requires x.Ok()
    ensures x.Done(|x.left|) == NestedLoops(x.left, x.Right(), x.f1, x.f2)
  {
    assert x.left[..|x.left|] == x.left;
  }

  lemma {:induction false} DoneGrows(x: JoinInput, k: int, n: int)
    requires x.Ok() && 0 <= k <= n <= |x.left|
    ensures |x.Done(k)| <= |x.Done(n)|
    decreases n - k
  {
    if k < n {
      DoneStep(x, k);
      DoneGrows(x, k + 1, n);
    }
  }

  /** Rows with other values add nothing. */
  lemma PartSkips(x: JoinInput, li: int, i: int, j: int, i': int, j': int)
    requires x.Ok() && 0 <= li < |x.left| && 0 <= i <= i' <= |x.a| && 0 <= j <= j' <= |x.b|
    requires forall m | i <= m < i' :: x.KeyA(m) != x.Key(li)
    requires forall m | j <= m < j' :: x.KeyB(m) != x.Key(li)
    ensures Part(x, li, i', j') == Part(x, li, i, j)
  {
    assert x.left[li] in x.left;
    forall m | i <= m < i'
      ensures x.a[m][x.f2] != x.left[li][x.f1]
    {
      assert x.KeyA(m) != x.Key(li);
    }
    forall m | j <= m < j'
      ensures x.b[m][x.f2] != x.left[li][x.f1]
    {
      assert x.KeyB(m) != x.Key(li);
    }
    NoPairs(x.left[li], x.a, x.f1, x.f2, i, i');
    NoPairs(x.left[li], x.b, x.f1, x.f2, j, j');
  }

  lemma PartNone(x: JoinInput, li: int)
    requires x.Ok() && 0 <= li < |x.left|
    ensures Part(x, li, 0, 0) == []
  {
    assert x.a[..0] == [] && x.b[..0] == [];
  }

  lemma Insert<T>(out: seq<T>, d: seq<T>, pa: seq<T>, pb: seq<T>, p: T)
    requires multiset(out) == multiset(d + (pa + pb))
    ensures multiset(out + [p]) == multiset(d + ((pa + [p]) + pb)) == multiset(d + (pa + (pb + [p])))
  {
    assert multiset(d + ((pa + [p]) + pb)) == multiset(d) + multiset(pa) + multiset{p} + multiset(pb);
    assert multiset(d + (pa + (pb + [p]))) == multiset(d) + multiset(pa) + multiset(pb) + multiset{p};
  }

  lemma Append<T>(d: seq<T>, pa: seq<T>, pb: seq<T>, p: T)
    ensures d + (pa + (pb + [p])) == d + (pa + pb) + [p]
    ensures pb == [] ==> d + ((pa + [p]) + pb) == d + (pa + pb) + [p]
  {
    if pb == [] {
      assert (pa + [p]) + pb == pa + [p] && pa + pb == pa;
    }
  }

  lemma PartNextA(x: JoinInput, li: int, i: int, j: int)
    requires x.Ok() && 0 <= li < |x.left| && 0 <= i < |x.a| && 0 <= j <= |x.b| && x.KeyA(i) == x.Key(li)
    ensures x.left[li] in x.left
    ensures Part(x, li, i + 1, j) == (PairsWith(x.left[li], x.a[..i], x.f1, x.f2) + [(x.left[li], x.a[i])])
                                     + PairsWith(x.left[li], x.b[..j], x.f1, x.f2)
  {
    assert x.left[li] in x.left;
    PairsStep(x.left[li], x.a, x.f1, x.f2, i);
  }

  lemma PartNextB(x: JoinInput, li: int, i: int, j: int)
    requires x.Ok() && 0 <= li < |x.left| && 0 <= i <= |x.a| && 0 <= j < |x.b| && x.KeyB(j) == x.Key(li)
    ensures x.left[li] in x.left
    ensures Part(x, li, i, j + 1) == PairsWith(x.left[li], x.a[..i], x.f1, x.f2)
                                     + (PairsWith(x.left[li], x.b[..j], x.f1, x.f2) + [(x.left[li], x.b[j])])
  {
    assert x.left[li] in x.left;
    PairsStep(x.left[li], x.b, x.f1, x.f2, j);
  }

  /** The current row, one of the first run, is passed. */
  lemma PartStepA(x: JoinInput, out: seq<Pair>, li: int, i: int, j: int)
    requires x.Ok() && 0 <= li < |x.left| && 0 <= i < |x.a| && 0 <= j <= |x.b| && x.KeyA(i) == x.Key(li)
    requires Same(x, out, x.Done(li) + Part(x, li, i, j))
    ensures Same(x, out + [(x.left[li], x.a[i])], x.Done(li) + Part(x, li, i + 1, j))
  {
    var l := x.left[li];
    assert l in x.left;
    var d, pa, pb := x.Done(li), PairsWith(l, x.a[..i], x.f1, x.f2), PairsWith(l, x.b[..j], x.f1, x.f2);
    PartNextA(x, li, i, j);
    Insert(out, d, pa, pb, (l, x.a[i]));
    if x.b == [] {
      NoPairsOfNone(l, x.f1, x.f2);
      assert x.b[..j] == [];
      Append(d, pa, pb, (l, x.a[i]));
    }
  }

  /** One of the second run is. */
  lemma PartStepB(x: JoinInput, out: seq<Pair>, li: int, i: int, j: int)
    requires x.Ok() && 0 <= li < |x.left| && 0 <= i <= |x.a| && 0 <= j < |x.b| && x.KeyB(j) == x.Key(li)
    requires Same(x, out, x.Done(li) + Part(x, li, i, j))
    ensures Same(x, out + [(x.left[li], x.b[j])], x.Done(li) + Part(x, li, i, j + 1))
  {
    var l := x.left[li];
    assert l in x.left;
    var d, pa, pb := x.Done(li), PairsWith(l, x.a[..i], x.f1, x.f2), PairsWith(l, x.b[..j], x.f1, x.f2);
    PartNextB(x, li, i, j);
    Insert(out, d, pa, pb, (l, x.b[j]));
  }

  /** The current row is passed. */
  lemma PartStep(x: JoinInput, out: seq<Pair>, li: int, c: Cursor)
    requires x.Ok() && 0 <= li < |x.left| && CanPass(x.a, x.b, c) && c.idx > 0 && x.KeyAt(c) == x.Key(li)
    requires Same(x, out, x.Done(li) + Part(x, li, c.i, c.j))
    ensures var p := Pass(x.a, x.b, c);
            Same(x, out + [(x.left[li], x.RowAt(c))], x.Done(li) + Part(x, li, p.i, p.j))
  {
    hide Same, Part, SortedOn, Has;
    if c.idx == 1 {
      PartStepA(x, out, li, c.i, c.j);
    } else {
      PartStepB(x, out, li, c.i, c.j);
    }
  }

  lemma NoPairsOfNone(l: Row, f1: Str, f2: Str)
    requires f1 in l
    ensures Has([], f2) && PairsWith(l, [], f1, f2) == []
  {}

  /** With one run every value can be read again. */
  lemma GoodAlone(a: seq<Row>, f: Str, v: Value)
    requires Has(a, f)
    ensures Has([], f) && GoodValue(a, [], f, v)
  {
    assert !HasKey([], f, v);
    assert FirstLarger([], f, v) == None;
  }

  lemma OneRunGood(x: JoinInput)
    requires x.Ok() && x.b == []
    ensures Rereadable(x)
  {
    hide GoodValue;
    forall v | KeyCount(x.left, x.f1, v) >= 2 && Occurs(x, v)
      ensures GoodValue(x.a, x.b, x.f2, v)
    {
      GoodAlone(x.a, x.f2, v);
    }
  }

  // ---------------------------------------------------------------------------------------------
  // Judging a value
  // ---------------------------------------------------------------------------------------------

  ghost predicate Repeats(rows: seq<Row>, f: Str, v: Value)
    requires Has(rows, f)
  {
    exists k :: 0 < k < |rows| && rows[k - 1][f] == v && rows[k][f] == v
  }

  /** A repeated value occurs twice. */
  lemma {:induction false} RepeatsTwice(rows: seq<Row>, f: Str, v: Value)
    requires Has(rows, f) && Repeats(rows, f, v)
    ensures KeyCount(rows, f, v) >= 2
  {
    var k :| 0 < k < |rows| && rows[k - 1][f] == v && rows[k][f] == v;
    if k == 1 {
      KeyCountFrom(rows, f, v, 0);
      KeyCountFrom(rows, f, v, 1);
      assert rows[0..] == rows;
    } else {
      assert rows[1..][k - 2] == rows[k - 1] && rows[1..][k - 1] == rows[k];
      RepeatsTwice(rows[1..], f, v);
    }
  }

  /** In a sorted list a value that occurs twice is repeated. */
  lemma {:induction false} TwiceRepeats(rows: seq<Row>, f: Str, v: Value)
    requires SortedOn(rows, f) && KeyCount(rows, f, v) >= 2
    ensures Repeats(rows, f, v)
  {
    if rows[0][f] == v {
      KeyCountZero(rows[1..], f, v);
      var m :| 0 <= m < |rows[1..]| && rows[1..][m][f] == v;
      assert rows[m + 1][f] == v && LessEq(rows[0][f], rows[1][f]) && LessEq(rows[1][f], rows[m + 1][f]);
      TotalOrder(rows[1][f], v);
      assert rows[0][f] == v && rows[1][f] == v;
    } else {
      assert SortedOn(rows[1..], f) by {
        assert forall m | 0 <= m < |rows| - 1 :: rows[1..][m] == rows[m + 1];
      }
      TwiceRepeats(rows[1..], f, v);
      var k :| 0 < k < |rows[1..]| && rows[1..][k - 1][f] == v && rows[1..][k][f] == v;
      assert rows[k][f] == v && rows[k + 1][f] == v;
    }
  }

  lemma RereadableJudged(x: JoinInput, n: int)
    requires x.Ok() && Rereadable(x)
    ensures Judged(x, n)
  {
    hide GoodValue, Occurs, KeyCount;
    forall k | 0 < k <= n && k < |x.left| && x.Key(k - 1) == x.Key(k) && Occurs(x, x.Key(k))
      ensures GoodValue(x.a, x.b, x.f2, x.Key(k))
    {
      RepeatsTwice(x.left, x.f1, x.Key(k));
    }
  }

  lemma JudgedRereadable(x: JoinInput)
    requires x.Ok() && Judged(x, |x.left|)
    ensures Rereadable(x)
  {
    hide GoodValue, Occurs, KeyCount;
    forall v | KeyCount(x.left, x.f1, v) >= 2 && Occurs(x, v)
      ensures GoodValue(x.a, x.b, x.f2, v)
    {
      TwiceRepeats(x.left, x.f1, v);
      var k :| 0 < k < |x.left| && x.left[k - 1][x.f1] == v && x.left[k][x.f1] == v;
      assert x.Key(k - 1) == x.Key(k) == v;
    }
  }

  /** The first larger value of a sorted list stands behind its values up to `v`. */
  lemma {:induction false} FirstLargerAt(rows: seq<Row>, f: Str, v: Value, i: int)
    requires Has(rows, f) && 0 <= i <= |rows|
    requires forall m | 0 <= m < i :: !Less(v, rows[m][f])
    requires i < |rows| ==> Less(v, rows[i][f])
    ensures FirstLarger(rows, f, v) == if i < |rows| then Some(rows[i][f]) else None
  {
    if i > 0 {
      assert forall m | 0 <= m < |rows| - 1 :: rows[1..][m] == rows[m + 1];
      FirstLargerAt(rows[1..], f, v, i - 1);
    }
  }
}

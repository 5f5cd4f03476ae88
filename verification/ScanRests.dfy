/**
 What a scan of two runs goes on to deliver from any state of its fields, and from which states that is what the
 merge of the rest of the runs would deliver.
 */
module ScanRests {
  import opened Types
  import opened Ordering
  import opened Sorting
  import opened Materialize

  // ---------------------------------------------------------------------------------------------
  // One call of `next`
  // ---------------------------------------------------------------------------------------------

  /** The places in two runs, the current run, or 0 before the first row, and the flags. */
  datatype Cursor = Cursor(i: int, j: int, idx: nat, more1: bool, more2: bool)

  function FirstCursor(a: seq<Row>, b: seq<Row>): Cursor {
    Cursor(0, 0, 0, a != [], b != [])
  }

  predicate InBounds(a: seq<Row>, b: seq<Row>, c: Cursor) {
    0 <= c.i <= |a| && 0 <= c.j <= |b| && c.idx <= 2
  }

  /** The current run has a row, and no flag is up at the end of its run. */
  predicate CanPass(a: seq<Row>, b: seq<Row>, c: Cursor) {
    && InBounds(a, b, c)
    && (c.more1 || c.idx == 1 ==> c.i < |a|)
    && (c.more2 || c.idx == 2 ==> c.j < |b|)
  }

  /** The current row is passed, and the flag of its run tells whether there is another one. */
  function Pass(a: seq<Row>, b: seq<Row>, c: Cursor): Cursor {
    if c.idx == 1 then c.(i := c.i + 1, more1 := c.i + 1 < |a|)
    else if c.idx == 2 then c.(j := c.j + 1, more2 := c.j + 1 < |b|)
    else c
  }

  predicate HasNext(a: seq<Row>, b: seq<Row>, c: Cursor) {
    Pass(a, b, c).more1 || Pass(a, b, c).more2
  }

  /** The smaller head becomes the current row. */
  function Enter(fields: seq<Str>, a: seq<Row>, b: seq<Row>, p: Cursor): Cursor
    requires AllHave(a, fields) && AllHave(b, fields)
    requires p.more1 && p.more2 ==> 0 <= p.i < |a| && 0 <= p.j < |b|
  {
    if !p.more1 && !p.more2 then p
    else p.(idx := if ChoosesFirst(fields, a, b, p.i, p.j, p.more1, p.more2) then 1 else 2)
  }

  /** `SortScan::next`. */
  function NextCursor(fields: seq<Str>, a: seq<Row>, b: seq<Row>, c: Cursor): Cursor
    requires AllHave(a, fields) && AllHave(b, fields) && CanPass(a, b, c)
  {
    Enter(fields, a, b, Pass(a, b, c))
  }

  /** No call reads behind the end of a run when the first one does not. */
  lemma NextCanPass(fields: seq<Str>, a: seq<Row>, b: seq<Row>, c: Cursor)
    requires AllHave(a, fields) && AllHave(b, fields) && CanPass(a, b, c)
    ensures InBounds(a, b, NextCursor(fields, a, b, c))
    ensures HasNext(a, b, c) ==> CanPass(a, b, NextCursor(fields, a, b, c)) && NextCursor(fields, a, b, c).idx > 0
  {}

  /** A call moves at most one run, and by one row. */
  lemma NextMoves(fields: seq<Str>, a: seq<Row>, b: seq<Row>, c: Cursor)
    requires AllHave(a, fields) && AllHave(b, fields) && CanPass(a, b, c)
    ensures var n := NextCursor(fields, a, b, c);
            n.i + n.j == c.i + c.j + if c.idx > 0 then 1 else 0
  {}

  /** The run that the comparison of the heads chooses. */
  predicate ChoosesFirst(fields: seq<Str>, a: seq<Row>, b: seq<Row>, i: int, j: int, more1: bool, more2: bool)
    requires AllHave(a, fields) && AllHave(b, fields)
    requires more1 && more2 ==> 0 <= i < |a| && 0 <= j < |b|
  {
    more1 && (more2 ==> Compare(fields, a[i], b[j]) < 0)
  }

  // ---------------------------------------------------------------------------------------------
  // All calls to come
  // ---------------------------------------------------------------------------------------------

  /** Two rows with the same values in the sort fields. */
  predicate Alike(fields: seq<Str>, r: Row, s: Row) {
    forall f | f in fields :: f in r && f in s && r[f] == s[f]
  }

  ghost predicate AllAlike(fields: seq<Str>, rs: seq<Row>, ss: seq<Row>) {
    |rs| == |ss| && forall k | 0 <= k < |rs| :: Alike(fields, rs[k], ss[k])
  }

  function Then(r: Row, rest: Option<seq<Row>>): Option<seq<Row>> {
    if rest.Some? then Some([r] + rest.value) else None
  }

  /**
   The rows to come, with the current one first, when run `idx` is the current one and `more` is the flag of the other
   run; nothing where the scan would read behind the end of a run, or has no current run.
   */
  function Rest(fields: seq<Str>, a: seq<Row>, b: seq<Row>, i: int, j: int, idx: nat, more: bool): Option<seq<Row>>
    requires AllHave(a, fields) && AllHave(b, fields) && 0 <= i <= |a| && 0 <= j <= |b|
    decreases |a| - i + |b| - j, 0
  {
    if idx == 1 && i < |a| then Then(a[i], Onward(fields, a, b, i + 1, j, i + 1 < |a|, more))
    else if idx == 2 && j < |b| then Then(b[j], Onward(fields, a, b, i, j + 1, more, j + 1 < |b|))
    else None
  }

  /** The rows to come after the current one has been passed. */
  function Onward(fields: seq<Str>, a: seq<Row>, b: seq<Row>, i: int, j: int, more1: bool, more2: bool)
    : Option<seq<Row>>
    requires AllHave(a, fields) && AllHave(b, fields) && 0 <= i <= |a| && 0 <= j <= |b|
    decreases |a| - i + |b| - j, 1
  {
    if !more1 && !more2 then Some([])
    else if more1 && more2 && (i == |a| || j == |b|) then None
    else if more1 && (more2 ==> Compare(fields, a[i], b[j]) < 0) then Rest(fields, a, b, i, j, 1, more2)
    else Rest(fields, a, b, i, j, 2, more1)
  }

  /** With no flag up at the end of its run, the scan comes to its end. */
  lemma {:induction false} OnwardDefined(fields: seq<Str>, a: seq<Row>, b: seq<Row>, i: int, j: int,
                                         more1: bool, more2: bool)
    requires AllHave(a, fields) && AllHave(b, fields) && 0 <= i <= |a| && 0 <= j <= |b|
    requires (more1 ==> i < |a|) && (more2 ==> j < |b|)
    ensures Onward(fields, a, b, i, j, more1, more2).Some?
    decreases |a| - i + |b| - j
  {
    if more1 || more2 {
      if ChoosesFirst(fields, a, b, i, j, more1, more2) {
        OnwardDefined(fields, a, b, i + 1, j, i + 1 < |a|, more2);
      } else {
        OnwardDefined(fields, a, b, i, j + 1, more1, j + 1 < |b|);
      }
    }
  }

  /** The rows to come from a cursor. */
  function RestOf(fields: seq<Str>, a: seq<Row>, b: seq<Row>, c: Cursor): Option<seq<Row>>
    requires AllHave(a, fields) && AllHave(b, fields) && InBounds(a, b, c)
  {
    Rest(fields, a, b, c.i, c.j, c.idx, if c.idx == 1 then c.more2 else c.more1)
  }

  /** A call of `next` takes the current row off the rows to come. */
  lemma RestOfNext(fields: seq<Str>, a: seq<Row>, b: seq<Row>, c: Cursor)
    requires AllHave(a, fields) && AllHave(b, fields) && CanPass(a, b, c) && c.idx > 0
    ensures InBounds(a, b, NextCursor(fields, a, b, c))
    ensures RestOf(fields, a, b, c).Some? && RestOf(fields, a, b, c).value != []
    ensures HasNext(a, b, c) <==> |RestOf(fields, a, b, c).value| > 1
    ensures HasNext(a, b, c) ==>
              RestOf(fields, a, b, NextCursor(fields, a, b, c)) == Some(RestOf(fields, a, b, c).value[1..])
  {
    hide Compare, HasFields;
    var p := Pass(a, b, c);
    OnwardDefined(fields, a, b, p.i, p.j, p.more1, p.more2);
    OnwardEmpty(fields, a, b, p.i, p.j, p.more1, p.more2);
  }

  lemma OnwardEmpty(fields: seq<Str>, a: seq<Row>, b: seq<Row>, i: int, j: int, more1: bool, more2: bool)
    requires AllHave(a, fields) && AllHave(b, fields) && 0 <= i <= |a| && 0 <= j <= |b|
    ensures Onward(fields, a, b, i, j, more1, more2) == Some([]) <==> !more1 && !more2
  {}

  /** With right flags, the rest of the two runs is merged. */
  lemma {:induction false} OnwardMerges(fields: seq<Str>, a: seq<Row>, b: seq<Row>, i: int, j: int)
    requires AllHave(a, fields) && AllHave(b, fields) && 0 <= i <= |a| && 0 <= j <= |b|
    ensures Onward(fields, a, b, i, j, i < |a|, j < |b|) == Some(Merge(fields, a[i..], b[j..]))
    decreases |a| - i + |b| - j
  {
    hide Compare, HasFields, Merge;
    if i == |a| && j == |b| {
      assert a[i..] == [] && b[j..] == [];
      MergeEnd(fields, a[i..], b[j..]);
    } else {
      MergeNext(fields, a, b, i, j);
      if j == |b| || (i < |a| && Compare(fields, a[i], b[j]) < 0) {
        OnwardMerges(fields, a, b, i + 1, j);
      } else {
        OnwardMerges(fields, a, b, i, j + 1);
      }
    }
  }

  /** A run whose flag is down is not read any more. */
  lemma {:induction false} OnwardAlone(fields: seq<Str>, a: seq<Row>, b: seq<Row>, i: int, j: int)
    requires AllHave(a, fields) && AllHave(b, fields) && 0 <= i <= |a| && 0 <= j <= |b|
    ensures Onward(fields, a, b, i, j, i < |a|, false) == Some(a[i..])
    ensures Onward(fields, a, b, i, j, false, j < |b|) == Some(b[j..])
    decreases |a| - i + |b| - j
  {
    hide Compare, HasFields;
    if i < |a| {
      assert a[i..] == [a[i]] + a[i + 1..];
      OnwardAlone(fields, a, b, i + 1, j);
    }
    if j < |b| {
      assert b[j..] == [b[j]] + b[j + 1..];
      OnwardAlone(fields, a, b, i, j + 1);
    }
    assert a[|a|..] == [] && b[|b|..] == [];
  }

  /** A run whose flag is up at its end is read there. */
  lemma BehindEnd(fields: seq<Str>, a: seq<Row>, b: seq<Row>, i: int, j: int)
    requires AllHave(a, fields) && AllHave(b, fields) && 0 <= i <= |a| && 0 <= j <= |b|
    ensures j == |b| ==> Onward(fields, a, b, i, j, i < |a|, true) == None
    ensures i == |a| ==> Onward(fields, a, b, i, j, true, j < |b|) == None
  {}

  lemma AlikeCompare(fields: seq<Str>, r: Row, s: Row)
    requires HasFields(r, fields) && HasFields(s, fields)
    ensures Alike(fields, r, s) <==> Compare(fields, r, s) == 0
  {
    CompareSwaps(fields, r, s);
  }

  lemma SortedTail(fields: seq<Str>, a: seq<Row>)
    requires Sorted(fields, a) && AllHave(a, fields) && a != []
    ensures Sorted(fields, a[1..]) && AllHave(a[1..], fields)
    ensures |a| > 1 ==> Before(fields, a[0], a[1])
  {
    assert forall k | 0 <= k < |a| - 1 :: a[1..][k] == a[k + 1];
  }

  /** The first row of the one run or of the other one, when the two are alike, leaves alike rests. */
  lemma {:induction false} EitherHead(fields: seq<Str>, a: seq<Row>, b: seq<Row>)
    requires AllHave(a, fields) && AllHave(b, fields) && Sorted(fields, a) && Sorted(fields, b)
    requires a != [] && b != [] && Compare(fields, a[0], b[0]) == 0
    ensures AllHave(a[1..], fields) && AllHave(b[1..], fields)
    ensures AllAlike(fields, Merge(fields, a[1..], b), Merge(fields, a, b[1..]))
    decreases |b|
  {
    hide HasFields, Compare;
    SortedTail(fields, a);
    SortedTail(fields, b);
    assert HasFields(a[0], fields) && HasFields(b[0], fields);
    AlikeCompare(fields, a[0], b[0]);
    CompareSwaps(fields, a[0], b[0]);
    MergeMultiset(fields, a[1..], b[1..]);
    AlikeSelf(fields, Merge(fields, a[1..], b[1..]));
    assert Merge(fields, a[1..], b) == [b[0]] + Merge(fields, a[1..], b[1..]) by {
      if |a| > 1 {
        assert HasFields(a[1], fields);
        BeforeTransitive(fields, b[0], a[0], a[1]);
        CompareSwaps(fields, b[0], a[1]);
      } else {
        assert b == [b[0]] + b[1..];
      }
    }
    if |b| > 1 && Compare(fields, a[0], b[1]) >= 0 {
      assert HasFields(b[1], fields);
      CompareSwaps(fields, a[0], b[1]);
      BeforeTransitive(fields, a[0], b[0], b[1]);
      AlikeCompare(fields, a[0], b[1]);
      EitherHead(fields, a, b[1..]);
      LongerAlike(fields, b[0], b[1], Merge(fields, a[1..], b[1..]), Merge(fields, a, b[1..][1..]));
    } else {
      assert Merge(fields, a, b[1..]) == [a[0]] + Merge(fields, a[1..], b[1..]) by {
        if |b| == 1 {
          assert a == [a[0]] + a[1..];
          MergeEnd(fields, a[1..], b[1..]);
        }
      }
      LongerAlike(fields, b[0], a[0], Merge(fields, a[1..], b[1..]), Merge(fields, a[1..], b[1..]));
    }
  }

  lemma AlikeSelf(fields: seq<Str>, rows: seq<Row>)
    requires AllHave(rows, fields)
    ensures AllAlike(fields, rows, rows)
  {
    assert forall k | 0 <= k < |rows| :: HasFields(rows[k], fields);
  }

  lemma LongerAlike(fields: seq<Str>, r: Row, s: Row, rs: seq<Row>, ss: seq<Row>)
    requires Alike(fields, r, s) && AllAlike(fields, rs, ss)
    ensures AllAlike(fields, [r] + rs, [s] + ss)
  {}

  /** The current run has its head at a smallest row, and the flag says whether the other run has rows left. */
  predicate GoodState(fields: seq<Str>, a: seq<Row>, b: seq<Row>, i: int, j: int, idx: nat, more: bool)
    requires AllHave(a, fields) && AllHave(b, fields) && 0 <= i <= |a| && 0 <= j <= |b|
  {
    || (idx == 1 && i < |a| && (more <==> j < |b|) && (j < |b| ==> Compare(fields, a[i], b[j]) <= 0))
    || (idx == 2 && j < |b| && (more <==> i < |a|) && (i < |a| ==> Compare(fields, b[j], a[i]) <= 0))
  }

  /** What comes are these rows, in this order but for rows that sort alike. */
  ghost predicate Delivers(fields: seq<Str>, rest: Option<seq<Row>>, rows: seq<Row>) {
    rest.Some? && AllAlike(fields, rest.value, rows) && multiset(rest.value) == multiset(rows)
  }

  lemma FirstAlike(fields: seq<Str>, rest: Option<seq<Row>>, rows: seq<Row>)
    ensures Delivers(fields, rest, rows) && rows != [] ==> rest.value != [] && Alike(fields, rest.value[0], rows[0])
  {}

  lemma Lengths(fields: seq<Str>, a: seq<Row>, b: seq<Row>, i: int, j: int)
    requires AllHave(a, fields) && AllHave(b, fields) && 0 <= i <= |a| && 0 <= j <= |b|
    ensures |Merge(fields, a[i..], b[j..])| == |a| - i + |b| - j
  {
    MergeMultiset(fields, a[i..], b[j..]);
    var all := Merge(fields, a[i..], b[j..]);
    assert |multiset(all)| == |all|;
    assert |multiset(a[i..])| == |a[i..]| && |multiset(b[j..])| == |b[j..]|;
  }

  /** From a good state come the rows of the merge, up to the order of alike rows. */
  lemma GoodDelivers(fields: seq<Str>, a: seq<Row>, b: seq<Row>, i: int, j: int, idx: nat, more: bool)
    requires AllHave(a, fields) && AllHave(b, fields) && Sorted(fields, a) && Sorted(fields, b)
    requires 0 <= i <= |a| && 0 <= j <= |b| && GoodState(fields, a, b, i, j, idx, more)
    ensures Delivers(fields, Rest(fields, a, b, i, j, idx, more), Merge(fields, a[i..], b[j..]))
  {
    hide Compare, HasFields, Merge;
    MergeNext(fields, a, b, i, j);
    MergeMultiset(fields, a[i..], b[j..]);
    var all := Merge(fields, a[i..], b[j..]);
    AlikeSelf(fields, all);
    if i < |a| && j < |b| {
      CompareSwaps(fields, a[i], b[j]);
    }
    if idx == 1 {
      OnwardMerges(fields, a, b, i + 1, j);
      if j < |b| && Compare(fields, a[i], b[j]) == 0 {
        Swapped(fields, a, b, i, j);
        SwappedBag(fields, a, b, i, j);
        LongerAlike(fields, a[i], b[j], Merge(fields, a[i + 1..], b[j..]), Merge(fields, a[i..], b[j + 1..]));
      }
    } else {
      OnwardMerges(fields, a, b, i, j + 1);
    }
  }

  lemma SwappedBag(fields: seq<Str>, a: seq<Row>, b: seq<Row>, i: int, j: int)
    requires AllHave(a, fields) && AllHave(b, fields) && 0 <= i < |a| && 0 <= j <= |b|
    ensures multiset([a[i]] + Merge(fields, a[i + 1..], b[j..])) == multiset(Merge(fields, a[i..], b[j..]))
  {
    hide Merge;
    MergeMultiset(fields, a[i + 1..], b[j..]);
    MergeMultiset(fields, a[i..], b[j..]);
    assert a[i..] == [a[i]] + a[i + 1..];
  }

  lemma Swapped(fields: seq<Str>, a: seq<Row>, b: seq<Row>, i: int, j: int)
    requires AllHave(a, fields) && AllHave(b, fields) && Sorted(fields, a) && Sorted(fields, b)
    requires 0 <= i < |a| && 0 <= j < |b| && Compare(fields, a[i], b[j]) == 0
    ensures Alike(fields, a[i], b[j])
    ensures AllAlike(fields, Merge(fields, a[i + 1..], b[j..]), Merge(fields, a[i..], b[j + 1..]))
  {
    hide Compare, HasFields, Merge;
    AlikeCompare(fields, a[i], b[j]);
    EitherHead(fields, a[i..], b[j..]);
    assert a[i..][1..] == a[i + 1..] && b[j..][1..] == b[j + 1..];
  }

  /** From any other state rows are missing, or the first one is too large, or a run is read behind its end. */
  lemma OtherwiseNot(fields: seq<Str>, a: seq<Row>, b: seq<Row>, i: int, j: int, idx: nat, more: bool)
    requires AllHave(a, fields) && AllHave(b, fields)
    requires 0 <= i <= |a| && 0 <= j <= |b| && (i < |a| || j < |b|) && !GoodState(fields, a, b, i, j, idx, more)
    ensures !Delivers(fields, Rest(fields, a, b, i, j, idx, more), Merge(fields, a[i..], b[j..]))
  {
    hide Compare, HasFields, Merge;
    Lengths(fields, a, b, i, j);
    MergeNext(fields, a, b, i, j);
    if i < |a| && j < |b| {
      CompareSwaps(fields, a[i], b[j]);
      AlikeCompare(fields, a[i], b[j]);
      AlikeCompare(fields, b[j], a[i]);
    }
    if idx == 1 && i < |a| {
      OnwardAlone(fields, a, b, i + 1, j);
      BehindEnd(fields, a, b, i + 1, j);
    }
    if idx == 2 && j < |b| {
      OnwardAlone(fields, a, b, i, j + 1);
      BehindEnd(fields, a, b, i, j + 1);
    }
    var rest, all := Rest(fields, a, b, i, j, idx, more), Merge(fields, a[i..], b[j..]);
    FirstAlike(fields, rest, all);
  }

  /** Exactly the good states deliver the sort values of the merge. */
  lemma RestIff(fields: seq<Str>, a: seq<Row>, b: seq<Row>, i: int, j: int, idx: nat, more: bool)
    requires AllHave(a, fields) && AllHave(b, fields) && Sorted(fields, a) && Sorted(fields, b)
    requires 0 <= i <= |a| && 0 <= j <= |b| && (i < |a| || j < |b|)
    ensures Delivers(fields, Rest(fields, a, b, i, j, idx, more), Merge(fields, a[i..], b[j..])) <==>
            GoodState(fields, a, b, i, j, idx, more)
  {
    hide Compare, HasFields, Merge, Rest, Delivers;
    if GoodState(fields, a, b, i, j, idx, more) {
      GoodDelivers(fields, a, b, i, j, idx, more);
    } else {
      OtherwiseNot(fields, a, b, i, j, idx, more);
    }
  }
}

/**
 The steps of a merge join and what they keep: moving the right scan, delivering a pair, going back to the beginning of
 a group, and looking for the next group. From the states that they keep follows when the join is complete at its end.
 */
module JoinSteps {
  import opened Types
  import opened Ordering
  import opened Joins
  import opened ScanRests
  import opened JoinStates

  // ---------------------------------------------------------------------------------------------
  // The states
  // ---------------------------------------------------------------------------------------------

  /** The left rows of the pairs come in their order, and none behind left row `li` has come. */
  ghost predicate InOrder(x: JoinInput, out: seq<Pair>, li: int)
    requires x.Ok() && 0 <= li
  {
    && InKeyOrder(out, x.f1)
    && (li < |x.left| ==> KeysUpTo(out, x.f1, x.Key(li)))
  }

  predicate More(c: Cursor) {
    c.more1 || c.more2
  }

  /** After a call of `next`: no flag is up at the end of its run, and the smaller head is current. */
  predicate Entered(x: JoinInput, c: Cursor)
    requires AllHave(x.a, [x.f2]) && AllHave(x.b, [x.f2])
  {
    && InBounds(x.a, x.b, c) && (c.more1 ==> c.i < |x.a|) && (c.more2 ==> c.j < |x.b|)
    && c == Enter([x.f2], x.a, x.b, c)
  }

  /** The saved places are not behind the current ones, and at the saved place the current run has a row. */
  predicate CanRestore(x: JoinInput, c: Cursor, si: int, sj: int) {
    && 0 <= si <= c.i && 0 <= sj <= c.j && c.idx > 0
    && (c.idx == 1 ==> si < |x.a|) && (c.idx == 2 ==> sj < |x.b|)
  }

  /** Left row `li` and the current right row are the pair delivered last. */
  ghost predicate Group(x: JoinInput, out: seq<Pair>, li: int, c: Cursor, si: int, sj: int)
    requires x.Ok()
  {
    && 0 <= li < |x.left| && CanPass(x.a, x.b, c) && CanRestore(x, c, si, sj) && InOrder(x, out, li)
    && (CleanGroup(x, out, li, c, si, sj) || (!Rereadable(x) && Spoilt(x, out, li, Pass(x.a, x.b, c))))
  }

  /** The right scan has gone on from there. */
  ghost predicate Moved(x: JoinInput, out: seq<Pair>, li: int, c: Cursor, si: int, sj: int)
    requires x.Ok()
  {
    && 0 <= li < |x.left| && Entered(x, c) && CanRestore(x, c, si, sj) && InOrder(x, out, li)
    && (CleanMoved(x, out, li, c, si, sj) || (!Rereadable(x) && Spoilt(x, out, li, c)))
  }

  /** The join looks for the next pair of equal values. */
  ghost predicate Searching(x: JoinInput, out: seq<Pair>, li: int, c: Cursor)
    requires x.Ok()
  {
    && 0 <= li <= |x.left| && Entered(x, c) && InOrder(x, out, li)
    && (CleanSearch(x, out, li, c) || (!Rereadable(x) && SpoiltSearch(x, out, li, c)))
  }

  ghost predicate SpoiltSearch(x: JoinInput, out: seq<Pair>, li: int, c: Cursor)
    requires x.Ok() && 0 <= li <= |x.left| && InBounds(x.a, x.b, c)
  {
    if li < |x.left| then Spoilt(x, out, li, c) else Wrong(x, out) || |out| < |x.Done(li)|
  }

  /** The join has come to its end: it is complete exactly if every repeated value can be read again. */
  ghost predicate Finished(x: JoinInput, out: seq<Pair>)
    requires x.Ok()
  {
    && InKeyOrder(out, x.f1)
    && (multiset(out) == multiset(NestedLoops(x.left, x.Right(), x.f1, x.f2)) <==> Rereadable(x))
    && (x.b == [] ==> out == NestedLoops(x.left, x.Right(), x.f1, x.f2))
  }

  // ---------------------------------------------------------------------------------------------
  // What can still be reached
  // ---------------------------------------------------------------------------------------------

  lemma ReachBound(x: JoinInput, c: Cursor, v: Value)
    requires x.Ok() && InBounds(x.a, x.b, c)
    ensures InReach(x, c, v) <= x.Matches(v)
  {
    KeyCountSplit(x.a, x.f2, v, c.i);
    KeyCountSplit(x.b, x.f2, v, c.j);
  }

  /** The current row can be reached, and no more after it has been passed. */
  lemma ReachPass(x: JoinInput, c: Cursor, v: Value)
    requires x.Ok() && CanPass(x.a, x.b, c) && c.idx > 0
    requires (c.idx == 1 ==> c.more1) && (c.idx == 2 ==> c.more2)
    ensures InReach(x, Pass(x.a, x.b, c), v) + (if x.KeyAt(c) == v then 1 else 0) == InReach(x, c, v)
  {
    if c.idx == 1 {
      KeyCountFrom(x.a, x.f2, v, c.i);
      assert x.a[|x.a|..] == [];
    } else {
      KeyCountFrom(x.b, x.f2, v, c.j);
      assert x.b[|x.b|..] == [];
    }
  }

  lemma EnteredRow(x: JoinInput, c: Cursor)
    requires x.Ok() && Entered(x, c) && More(c)
    ensures CanPass(x.a, x.b, c) && c.idx > 0 && x.OnRow(c) && (c.idx == 1 ==> c.more1) && (c.idx == 2 ==> c.more2)
  {}

  lemma EnteredNext(x: JoinInput, c: Cursor)
    requires x.Ok() && CanPass(x.a, x.b, c) && c.idx > 0
    ensures var n := NextCursor([x.f2], x.a, x.b, c);
            && Entered(x, n) && n.idx > 0 && (More(n) <==> HasNext(x.a, x.b, c)) && n.i >= c.i && n.j >= c.j
            && (n.idx == c.idx || More(n))
            && n == Pass(x.a, x.b, c).(idx := n.idx)
  {
    hide Compare, HasFields, LessEq;
  }

  // ---------------------------------------------------------------------------------------------
  // The order of delivery
  // ---------------------------------------------------------------------------------------------

  lemma OrderGrows(x: JoinInput, out: seq<Pair>, li: int, r: Row)
    requires x.Ok() && 0 <= li < |x.left| && InOrder(x, out, li)
    ensures InOrder(x, out + [(x.left[li], r)], li)
  {
    assert x.left[li] in x.left;
    var out' := out + [(x.left[li], r)];
    TotalOrder(x.Key(li), x.Key(li));
    forall i, j | 0 <= i < j < |out'|
      ensures x.f1 in out'[i].0 && x.f1 in out'[j].0 && LessEq(out'[i].0[x.f1], out'[j].0[x.f1])
    {
      assert out'[i] in out;
    }
  }

  lemma OrderNext(x: JoinInput, out: seq<Pair>, li: int)
    requires x.Ok() && 0 <= li < |x.left| && InOrder(x, out, li)
    ensures InOrder(x, out, li + 1)
  {
    if li + 1 < |x.left| {
      forall p | p in out
        ensures x.f1 in p.0 && LessEq(p.0[x.f1], x.Key(li + 1))
      {
        TransitiveOrder(p.0[x.f1], x.Key(li), x.Key(li + 1));
      }
    }
  }

  lemma WrongStays(x: JoinInput, out: seq<Pair>, p: Pair)
    ensures Wrong(x, out) || WrongPair(x, p) ==> Wrong(x, out + [p])
  {
    if q :| q in out && WrongPair(x, q) {
      assert q in out + [p];
    }
    assert p in out + [p];
  }

  // ---------------------------------------------------------------------------------------------
  // The steps of a join that has gone wrong
  // ---------------------------------------------------------------------------------------------

  lemma SpoiltTakes(x: JoinInput, out: seq<Pair>, li: int, c: Cursor)
    requires x.Ok() && 0 <= li < |x.left| && Entered(x, c) && More(c) && Spoilt(x, out, li, c)
    requires x.OnRow(c)
    ensures CanPass(x.a, x.b, c) && Spoilt(x, out + [(x.left[li], x.RowAt(c))], li, Pass(x.a, x.b, c))
  {
    hide InReach, NestedLoops, KeyCount;
    EnteredRow(x, c);
    WrongStays(x, out, (x.left[li], x.RowAt(c)));
    ReachPass(x, c, x.Key(li));
    if x.KeyAt(c) != x.Key(li) {
      assert WrongPair(x, (x.left[li], x.RowAt(c)));
    }
  }

  /** Going on to the next left row. */
  lemma SpoiltLeft(x: JoinInput, out: seq<Pair>, li: int, c: Cursor)
    requires x.Ok() && 0 <= li < |x.left| && InBounds(x.a, x.b, c) && Spoilt(x, out, li, c)
    ensures SpoiltSearch(x, out, li + 1, c)
    ensures Wrong(x, out) || |out| < |x.Done(li + 1)|
  {
    hide InReach, NestedLoops;
    if li + 1 < |x.left| {
      ReachBound(x, c, x.Key(li + 1));
      DoneStep(x, li + 1);
    }
  }

  /** Going back to the group for the next left row. */
  lemma SpoiltRestores(x: JoinInput, out: seq<Pair>, li: int, c: Cursor)
    requires x.Ok() && 0 <= li && li + 1 < |x.left| && CanPass(x.a, x.b, c) && c.idx > 0
    requires Wrong(x, out) || |out| < |x.Done(li + 1)|
    ensures Spoilt(x, out + [(x.left[li + 1], x.RowAt(c))], li + 1, Pass(x.a, x.b, c))
  {
    hide InReach, NestedLoops, KeyCount;
    var p := (x.left[li + 1], x.RowAt(c));
    WrongStays(x, out, p);
    if x.KeyAt(c) != x.Key(li + 1) {
      assert WrongPair(x, p);
    } else {
      DoneStep(x, li + 1);
      RestoredReach(x, c, x.Key(li + 1));
    }
  }

  /** The row at a restored cursor counts, whatever the flag of its run is. */
  lemma RestoredReach(x: JoinInput, c: Cursor, v: Value)
    requires x.Ok() && CanPass(x.a, x.b, c) && c.idx > 0 && x.KeyAt(c) == v
    ensures InReach(x, Pass(x.a, x.b, c), v) + 1 <= x.Matches(v)
  {
    var d := if c.idx == 1 then c.(more1 := true) else c.(more2 := true);
    ReachPass(x, d, v);
    ReachBound(x, d, v);
  }

  // ---------------------------------------------------------------------------------------------
  // The steps of a join that is right so far
  // ---------------------------------------------------------------------------------------------

  lemma CleanMoves(x: JoinInput, out: seq<Pair>, li: int, c: Cursor, si: int, sj: int)
    requires x.Ok() && CleanGroup(x, out, li, c, si, sj)
    ensures CleanMoved(x, out, li, NextCursor([x.f2], x.a, x.b, c), si, sj)
  {
    hide Same, Judged, Frontier, NestedLoops, PairsWith, Compare, HasFields, LessEq;
  }

  lemma CleanTakes(x: JoinInput, out: seq<Pair>, li: int, c: Cursor, si: int, sj: int)
    requires x.Ok() && CleanMoved(x, out, li, c, si, sj) && Entered(x, c) && More(c)
    requires x.OnRow(c) && x.KeyAt(c) == x.Key(li)
    ensures CleanGroup(x, out + [(x.left[li], x.RowAt(c))], li, c, si, sj)
  {
    hide Same, Judged, Frontier, NestedLoops, PairsWith, Compare, HasFields, LessEq;
    EnteredRow(x, c);
    PartStep(x, out, li, c);
  }

  /** All rows from the places on are larger: the group has been read to its end. */
  ghost predicate GroupRead(x: JoinInput, i: int, j: int, v: Value)
    requires x.Ok() && 0 <= i <= |x.a| && 0 <= j <= |x.b|
  {
    && (forall m | i <= m < |x.a| :: Less(v, x.KeyA(m)))
    && (forall m | j <= m < |x.b| :: Less(v, x.KeyB(m)))
  }

  lemma SmallerHead(x: JoinInput, c: Cursor)
    requires x.Ok() && Fresh(x, c) && Entered(x, c) && More(c)
    ensures x.OnRow(c)
    ensures c.i < |x.a| ==> LessEq(x.KeyAt(c), x.KeyA(c.i))
    ensures c.j < |x.b| ==> LessEq(x.KeyAt(c), x.KeyB(c.j))
    ensures c.idx == 1 && c.j < |x.b| ==> Less(x.KeyAt(c), x.KeyB(c.j))
    ensures c.i < |x.a| && c.j < |x.b| ==> (c.idx == 1 <==> Less(x.KeyA(c.i), x.KeyB(c.j)))
  {
    EnteredRow(x, c);
    if c.i < |x.a| {
      TotalOrder(x.KeyA(c.i), x.KeyA(c.i));
      if c.j < |x.b| {
        CompareOne(x.f2, x.a[c.i], x.b[c.j]);
        TotalOrder(x.KeyA(c.i), x.KeyB(c.j));
      }
    }
    if c.j < |x.b| {
      TotalOrder(x.KeyB(c.j), x.KeyB(c.j));
    }
  }

  lemma CompareOne(f: Str, r: Row, s: Row)
    requires f in r && f in s
    ensures HasFields(r, [f]) && HasFields(s, [f]) && (Compare([f], r, s) < 0 <==> Less(r[f], s[f]))
  {
    TotalOrder(r[f], s[f]);
    assert [f][1..] == [];
  }

  /** The scan has come out of the group. */
  lemma GroupEnds(x: JoinInput, li: int, c: Cursor, si: int, sj: int)
    requires x.Ok() && 0 <= li < |x.left| && Fresh(x, c) && Entered(x, c)
    requires Frontier(x, si, sj, x.Key(li)) && Between(x, si, sj, c.i, c.j, x.Key(li))
    requires More(c) ==> x.OnRow(c) && x.KeyAt(c) != x.Key(li)
    ensures GroupRead(x, c.i, c.j, x.Key(li))
  {
    hide Compare, HasFields;
    var v := x.Key(li);
    if More(c) {
      SmallerHead(x, c);
    }
    forall m | c.i <= m < |x.a|
      ensures Less(v, x.KeyA(m))
    {
      LargerHead(v, x.KeyAt(c), x.KeyA(c.i), x.KeyA(m));
    }
    forall m | c.j <= m < |x.b|
      ensures Less(v, x.KeyB(m))
    {
      LargerHead(v, x.KeyAt(c), x.KeyB(c.j), x.KeyB(m));
    }
  }

  lemma LargerHead(v: Value, least: Value, head: Value, w: Value)
    requires least != v && LessEq(v, least) && LessEq(least, head) && (LessEq(head, w) || head == w)
    ensures Less(v, w)
  {
    TotalOrder(v, least);
    TotalOrder(head, w);
    TransitiveOrder(v, least, head);
    if head != w {
      TransitiveOrder(v, head, w);
    }
  }

  // ---------------------------------------------------------------------------------------------
  // Going back to the beginning of a group
  // ---------------------------------------------------------------------------------------------

  lemma KeyInRun(rows: seq<Row>, f: Str, v: Value, s: int, i: int)
    requires SortedOn(rows, f) && 0 <= s <= i <= |rows|
    requires forall m | 0 <= m < s :: Less(rows[m][f], v)
    requires forall m | s <= m < i :: rows[m][f] == v
    requires forall m | i <= m < |rows| :: Less(v, rows[m][f])
    ensures HasKey(rows, f, v) <==> s < i
    ensures FirstLarger(rows, f, v) == if i < |rows| then Some(rows[i][f]) else None
    ensures KeyCount(rows[s..], f, v) == KeyCount(rows, f, v) && (s < i <==> KeyCount(rows, f, v) > 0)
  {
    TotalOrder(v, v);
    forall m | 0 <= m < i
      ensures !Less(v, rows[m][f])
    {
      TotalOrder(v, rows[m][f]);
    }
    FirstLargerAt(rows, f, v, i);
    KeyCountSplit(rows, f, v, s);
    KeyCountZero(rows[..s], f, v);
    KeyCountZero(rows, f, v);
    if s < i {
      assert rows[s][f] == v;
    }
  }

  lemma RunsAround(x: JoinInput, v: Value, si: int, sj: int, i: int, j: int)
    requires x.Ok() && Frontier(x, si, sj, v) && Between(x, si, sj, i, j, v) && GroupRead(x, i, j, v)
    ensures (HasKey(x.a, x.f2, v) <==> si < i) && (HasKey(x.b, x.f2, v) <==> sj < j)
    ensures FirstLarger(x.a, x.f2, v) == if i < |x.a| then Some(x.KeyA(i)) else None
    ensures FirstLarger(x.b, x.f2, v) == if j < |x.b| then Some(x.KeyB(j)) else None
    ensures KeyCount(x.a[si..], x.f2, v) == KeyCount(x.a, x.f2, v) && (si < i <==> KeyCount(x.a, x.f2, v) > 0)
    ensures KeyCount(x.b[sj..], x.f2, v) == KeyCount(x.b, x.f2, v) && (sj < j <==> KeyCount(x.b, x.f2, v) > 0)
  {
    hide LessEq, HasKey, FirstLarger, KeyCount;
    forall m | 0 <= m < |x.a|
      ensures x.a[m][x.f2] == x.KeyA(m)
    {}
    forall m | 0 <= m < |x.b|
      ensures x.b[m][x.f2] == x.KeyB(m)
    {}
    KeyInRun(x.a, x.f2, v, si, i);
    KeyInRun(x.b, x.f2, v, sj, j);
  }

  /** The scan has read a group to its end, and goes back to the beginning of the group. */
  ghost predicate Back(x: JoinInput, li: int, c: Cursor, si: int, sj: int)
    requires x.Ok()
  {
    && 0 <= li < |x.left| && Fresh(x, c) && Entered(x, c) && CanRestore(x, c, si, sj)
    && Frontier(x, si, sj, x.Key(li)) && Between(x, si, sj, c.i, c.j, x.Key(li)) && GroupRead(x, c.i, c.j, x.Key(li))
    && (!More(c) ==> (c.idx == 1 && si < c.i) || (c.idx == 2 && sj < c.j))
  }

  /** A value that can be read again: the current run has it, and the other flag tells whether that run goes on. */
  lemma GoodBack(x: JoinInput, li: int, c: Cursor, si: int, sj: int)
    requires x.Ok() && Back(x, li, c, si, sj) && GoodValue(x.a, x.b, x.f2, x.Key(li))
    ensures var r := c.(i := si, j := sj);
            && CanPass(x.a, x.b, r) && x.KeyAt(r) == x.Key(li)
            && (c.idx == 1 ==> (c.more2 <==> sj < |x.b|)) && (c.idx == 2 ==> (c.more1 <==> si < |x.a|))
            && var p := Pass(x.a, x.b, r);
            Between(x, si, sj, p.i, p.j, x.Key(li))
  {
    hide Compare, HasFields, HasKey, FirstLarger, KeyCount;
    var v := x.Key(li);
    RunsAround(x, v, si, sj, c.i, c.j);
    if More(c) {
      SmallerHead(x, c);
    }
    if c.i < |x.a| && c.j < |x.b| {
      TotalOrder(x.KeyB(c.j), x.KeyA(c.i));
    }
    BackRow(x, v, c, si, sj);
  }

  /** The row of a run at its saved place has the value exactly if the run has it at all. */
  lemma BackRow(x: JoinInput, v: Value, c: Cursor, si: int, sj: int)
    requires x.Ok() && Frontier(x, si, sj, v) && Between(x, si, sj, c.i, c.j, v) && GroupRead(x, c.i, c.j, v)
    ensures si < |x.a| ==> (x.KeyA(si) == v <==> si < c.i)
    ensures sj < |x.b| ==> (x.KeyB(sj) == v <==> sj < c.j)
  {
    TotalOrder(v, v);
  }

  /** Any other value: the row is another one, or rows with the value cannot be reached any more. */
  lemma BadBack(x: JoinInput, li: int, c: Cursor, si: int, sj: int)
    requires x.Ok() && Back(x, li, c, si, sj) && !GoodValue(x.a, x.b, x.f2, x.Key(li))
    ensures var r := c.(i := si, j := sj);
            && CanPass(x.a, x.b, r)
            && (x.KeyAt(r) == x.Key(li) ==> InReach(x, Pass(x.a, x.b, r), x.Key(li)) + 1 < x.Matches(x.Key(li)))
  {
    hide LessEq, Compare, HasFields, HasKey, FirstLarger, KeyCount;
    var v := x.Key(li);
    RunsAround(x, v, si, sj, c.i, c.j);
    if More(c) {
      SmallerHead(x, c);
      TotalOrder(x.KeyAt(c), x.KeyAt(c));
    }
    BackRow(x, v, c, si, sj);
    var r := c.(i := si, j := sj);
    if x.KeyAt(r) == v {
      BothRuns(x, v, c, si, sj);
    }
  }

  /** A value in both runs, of which one has its flag down. */
  lemma BothRuns(x: JoinInput, v: Value, c: Cursor, si: int, sj: int)
    requires x.Ok() && InBounds(x.a, x.b, c) && 0 <= si <= |x.a| && 0 <= sj <= |x.b|
    requires (c.idx == 1 && si < |x.a| && x.KeyA(si) == v && !c.more2 && KeyCount(x.b, x.f2, v) > 0)
             || (c.idx == 2 && sj < |x.b| && x.KeyB(sj) == v && !c.more1 && KeyCount(x.a, x.f2, v) > 0)
    requires KeyCount(x.a[si..], x.f2, v) == KeyCount(x.a, x.f2, v)
    requires KeyCount(x.b[sj..], x.f2, v) == KeyCount(x.b, x.f2, v)
    ensures var r := c.(i := si, j := sj);
            InReach(x, Pass(x.a, x.b, r), v) + 1 < x.Matches(v)
  {
    if c.idx == 1 {
      KeyCountFrom(x.a, x.f2, v, si);
    } else {
      KeyCountFrom(x.b, x.f2, v, sj);
    }
  }

  /** The first row of a group, for the next left row. */
  lemma PartFirst(x: JoinInput, out: seq<Pair>, li: int, c: Cursor)
    requires x.Ok() && 0 <= li < |x.left| && CanPass(x.a, x.b, c) && c.idx > 0 && x.KeyAt(c) == x.Key(li)
    requires Frontier(x, c.i, c.j, x.Key(li)) && Same(x, out, x.Done(li))
    ensures var p := Pass(x.a, x.b, c);
            Same(x, out + [(x.left[li], x.RowAt(c))], x.Done(li) + Part(x, li, p.i, p.j))
  {
    hide NestedLoops, PairsWith;
    TotalOrder(x.Key(li), x.Key(li));
    PartSkips(x, li, 0, 0, c.i, c.j);
    PartNone(x, li);
    assert x.Done(li) + [] == x.Done(li);
    PartStep(x, out, li, c);
  }

  /** The group is read to its end: left row `li` is joined. */
  lemma PartEnd(x: JoinInput, out: seq<Pair>, li: int, i: int, j: int)
    requires x.Ok() && 0 <= li < |x.left| && 0 <= i <= |x.a| && 0 <= j <= |x.b| && GroupRead(x, i, j, x.Key(li))
    requires Same(x, out, x.Done(li) + Part(x, li, i, j))
    ensures Same(x, out, x.Done(li + 1))
  {
    hide NestedLoops, PairsWith;
    TotalOrder(x.Key(li), x.Key(li));
    PartSkips(x, li, i, j, |x.a|, |x.b|);
    DoneStep(x, li);
  }

  lemma SameLength(x: JoinInput, out: seq<Pair>, pairs: seq<Pair>)
    requires Same(x, out, pairs)
    ensures |out| == |pairs|
  {
    assert |multiset(out)| == |out| && |multiset(pairs)| == |pairs|;
  }

  lemma JudgeNext(x: JoinInput, li: int, si: int, sj: int, i: int, j: int)
    requires x.Ok() && 0 <= li && li + 1 < |x.left| && Judged(x, li) && x.Key(li + 1) == x.Key(li)
    requires Between(x, si, sj, i, j, x.Key(li))
    ensures Judged(x, li + 1) <==> GoodValue(x.a, x.b, x.f2, x.Key(li))
  {
    hide GoodValue;
    var v := x.Key(li);
    assert Occurs(x, v) by {
      if si < i {
        assert x.KeyA(si) == v;
      } else {
        assert x.KeyB(sj) == v;
      }
    }
  }

  lemma CleanRestores(x: JoinInput, out: seq<Pair>, li: int, c: Cursor, si: int, sj: int)
    requires x.Ok() && CleanMoved(x, out, li, c, si, sj) && Entered(x, c) && CanRestore(x, c, si, sj)
    requires More(c) ==> x.OnRow(c) && x.KeyAt(c) != x.Key(li)
    requires li + 1 < |x.left| && x.Key(li + 1) == x.Key(li)
    ensures var r := c.(i := si, j := sj);
            && CanPass(x.a, x.b, r)
            && var out' := out + [(x.left[li + 1], x.RowAt(r))];
            || CleanGroup(x, out', li + 1, r, si, sj)
            || (!Rereadable(x) && Spoilt(x, out', li + 1, Pass(x.a, x.b, r)))
  {
    hide NestedLoops, PairsWith, GoodValue, Compare, HasFields, LessEq, Judged, Rereadable, Between, Frontier, Same;
    hide InReach, KeyCount, GroupRead;
    GroupEnds(x, li, c, si, sj);
    JudgeNext(x, li, si, sj, c.i, c.j);
    PartEnd(x, out, li, c.i, c.j);
    var r := c.(i := si, j := sj);
    if GoodValue(x.a, x.b, x.f2, x.Key(li)) {
      GoodBack(x, li, c, si, sj);
      PartFirst(x, out, li + 1, r);
    } else {
      BadBack(x, li, c, si, sj);
      if Rereadable(x) {
        RereadableJudged(x, li + 1);
      }
      SameLength(x, out, x.Done(li + 1));
      DoneStep(x, li + 1);
      WrongStays(x, out, (x.left[li + 1], x.RowAt(r)));
    }
  }

  // ---------------------------------------------------------------------------------------------
  // Looking for the next group
  // ---------------------------------------------------------------------------------------------

  lemma CleanLeaves(x: JoinInput, out: seq<Pair>, li: int, c: Cursor, si: int, sj: int)
    requires x.Ok() && CleanMoved(x, out, li, c, si, sj) && Entered(x, c)
    requires More(c) ==> x.OnRow(c) && x.KeyAt(c) != x.Key(li)
    requires li + 1 < |x.left| ==> x.Key(li + 1) != x.Key(li)
    ensures CleanSearch(x, out, li + 1, c)
  {
    hide NestedLoops, PairsWith, GoodValue, Compare, HasFields, Same, Occurs;
    GroupEnds(x, li, c, si, sj);
    PartEnd(x, out, li, c.i, c.j);
    forall n | li + 1 <= n < |x.left|
      ensures Less(x.Key(li), x.Key(n))
    {
      LargerHead(x.Key(li), x.Key(li + 1), x.Key(li + 1), x.Key(n));
    }
    forall m, n | 0 <= m < c.i && li + 1 <= n < |x.left|
      ensures Less(x.KeyA(m), x.Key(n))
    {
      TransitiveOrder(x.KeyA(m), x.Key(li), x.Key(n));
    }
    forall m, n | 0 <= m < c.j && li + 1 <= n < |x.left|
      ensures Less(x.KeyB(m), x.Key(n))
    {
      TransitiveOrder(x.KeyB(m), x.Key(li), x.Key(n));
    }
  }

  /** A left row that is smaller than all right rows to come, and larger than those that have been passed. */
  lemma CleanSkipsLeft(x: JoinInput, out: seq<Pair>, li: int, c: Cursor)
    requires x.Ok() && CleanSearch(x, out, li, c) && Entered(x, c) && More(c) && li < |x.left|
    requires x.OnRow(c) && Less(x.Key(li), x.KeyAt(c))
    ensures CleanSearch(x, out, li + 1, c)
  {
    hide NestedLoops, PairsWith, GoodValue, Compare, HasFields, Same;
    NoneBetween(x, li, c);
    DoneStep(x, li);
    PartSkips(x, li, 0, 0, |x.a|, |x.b|);
    PartNone(x, li);
    assert x.Done(li) + [] == x.Done(li);
    assert !Occurs(x, x.Key(li)) by {
      assert forall m | 0 <= m < |x.a| :: x.KeyA(m) == x.a[m][x.f2];
      assert forall m | 0 <= m < |x.b| :: x.KeyB(m) == x.b[m][x.f2];
    }
  }

  lemma NoneBetween(x: JoinInput, li: int, c: Cursor)
    requires x.Ok() && 0 <= li < |x.left| && Fresh(x, c) && Entered(x, c) && More(c)
    requires x.OnRow(c) && Less(x.Key(li), x.KeyAt(c))
    requires forall m | 0 <= m < c.i :: Less(x.KeyA(m), x.Key(li))
    requires forall m | 0 <= m < c.j :: Less(x.KeyB(m), x.Key(li))
    ensures forall m | 0 <= m < |x.a| :: x.KeyA(m) != x.Key(li)
    ensures forall m | 0 <= m < |x.b| :: x.KeyB(m) != x.Key(li)
  {
    hide Compare, HasFields;
    var v := x.Key(li);
    TotalOrder(v, v);
    SmallerHead(x, c);
    forall m | 0 <= m < |x.a|
      ensures x.KeyA(m) != v
    {
      if m >= c.i {
        LargerHead(v, x.KeyAt(c), x.KeyA(c.i), x.KeyA(m));
      }
    }
    forall m | 0 <= m < |x.b|
      ensures x.KeyB(m) != v
    {
      if m >= c.j {
        LargerHead(v, x.KeyAt(c), x.KeyB(c.j), x.KeyB(m));
      }
    }
  }

  lemma CleanSkipsRight(x: JoinInput, out: seq<Pair>, li: int, c: Cursor)
    requires x.Ok() && CleanSearch(x, out, li, c) && Entered(x, c) && More(c) && li < |x.left|
    requires x.OnRow(c) && Less(x.KeyAt(c), x.Key(li)) && CanPass(x.a, x.b, c)
    ensures CleanSearch(x, out, li, NextCursor([x.f2], x.a, x.b, c))
  {
    hide NestedLoops, PairsWith, GoodValue, Compare, HasFields, Same, Judged;
    forall n | li <= n < |x.left|
      ensures Less(x.KeyAt(c), x.Key(n))
    {
      TransitiveOrder(x.KeyAt(c), x.Key(li), x.Key(li));
      if n > li {
        TransitiveOrder(x.KeyAt(c), x.Key(li), x.Key(n));
      }
    }
  }

  /** The first pair of a group. */
  lemma CleanEnters(x: JoinInput, out: seq<Pair>, li: int, c: Cursor)
    requires x.Ok() && CleanSearch(x, out, li, c) && Entered(x, c) && More(c) && li < |x.left|
    requires x.OnRow(c) && x.KeyAt(c) == x.Key(li) && CanPass(x.a, x.b, c)
    ensures CleanGroup(x, out + [(x.left[li], x.RowAt(c))], li, c, c.i, c.j)
  {
    hide NestedLoops, PairsWith, GoodValue, Compare, HasFields, Same, Judged;
    SmallerHead(x, c);
    assert Frontier(x, c.i, c.j, x.Key(li)) by {
      forall m | c.i <= m < |x.a|
        ensures LessEq(x.Key(li), x.KeyA(m))
      {
        if m > c.i {
          TransitiveOrder(x.Key(li), x.KeyA(c.i), x.KeyA(m));
        }
      }
      forall m | c.j <= m < |x.b|
        ensures LessEq(x.Key(li), x.KeyB(m))
      {
        if m > c.j {
          TransitiveOrder(x.Key(li), x.KeyB(c.j), x.KeyB(m));
        }
      }
    }
    PartFirst(x, out, li, c);
  }

  /** One side is exhausted. */
  lemma CleanEnds(x: JoinInput, out: seq<Pair>, li: int, c: Cursor)
    requires x.Ok() && CleanSearch(x, out, li, c) && (li == |x.left| || !More(c))
    ensures Same(x, out, x.Done(|x.left|)) && Rereadable(x)
  {
    hide NestedLoops, PairsWith, GoodValue, Compare, HasFields, Same;
    if li < |x.left| {
      RestMatchesNothing(x, li, |x.left|);
    }
    assert Judged(x, |x.left|);
    JudgedRereadable(x);
  }

  /** Left rows from `li` on that match nothing add nothing, and need not be judged. */
  lemma {:induction false} RestMatchesNothing(x: JoinInput, li: int, n: int)
    requires x.Ok() && 0 <= li <= n <= |x.left| && Judged(x, li)
    requires forall m, k | 0 <= m < |x.a| && li <= k < |x.left| :: Less(x.KeyA(m), x.Key(k))
    requires forall m, k | 0 <= m < |x.b| && li <= k < |x.left| :: Less(x.KeyB(m), x.Key(k))
    ensures x.Done(n) == x.Done(li) && Judged(x, n)
    decreases n - li
  {
    hide NestedLoops, PairsWith, GoodValue;
    if li < n {
      RestMatchesNothing(x, li, n - 1);
      DoneStep(x, n - 1);
      TotalOrder(x.Key(n - 1), x.Key(n - 1));
      PartSkips(x, n - 1, 0, 0, |x.a|, |x.b|);
      PartNone(x, n - 1);
      assert x.Done(n - 1) + [] == x.Done(n - 1);
      if n < |x.left| {
        TotalOrder(x.Key(n), x.Key(n));
        assert forall m | 0 <= m < |x.a| :: x.KeyA(m) == x.a[m][x.f2] && x.KeyA(m) != x.Key(n);
        assert forall m | 0 <= m < |x.b| :: x.KeyB(m) == x.b[m][x.f2] && x.KeyB(m) != x.Key(n);
        assert !Occurs(x, x.Key(n));
      }
    }
  }

  // ---------------------------------------------------------------------------------------------
  // The steps
  // ---------------------------------------------------------------------------------------------

  lemma StartStep(x: JoinInput)
    requires x.Ok()
    ensures CanPass(x.a, x.b, FirstCursor(x.a, x.b))
    ensures var n := NextCursor([x.f2], x.a, x.b, FirstCursor(x.a, x.b));
            Searching(x, [], 0, n) && (More(n) <==> HasNext(x.a, x.b, FirstCursor(x.a, x.b)))
  {
    assert x.left[..0] == [];
    assert x.Done(0) == [];
    hide NestedLoops, PairsWith, GoodValue, Compare, HasFields;
  }

  lemma MoveStep(x: JoinInput, out: seq<Pair>, li: int, c: Cursor, si: int, sj: int)
    requires x.Ok() && Group(x, out, li, c, si, sj)
    ensures c.idx > 0
    ensures var n := NextCursor([x.f2], x.a, x.b, c);
            Moved(x, out, li, n, si, sj) && (More(n) <==> HasNext(x.a, x.b, c))
  {
    hide CleanGroup, CleanMoved, InOrder, Rereadable, Wrong, NestedLoops, KeyCount, Compare, HasFields;
    EnteredNext(x, c);
    if CleanGroup(x, out, li, c, si, sj) {
      CleanMoves(x, out, li, c, si, sj);
    }
  }

  lemma TakeStep(x: JoinInput, out: seq<Pair>, li: int, c: Cursor, si: int, sj: int)
    requires x.Ok() && Moved(x, out, li, c, si, sj) && More(c) && x.OnRow(c) && x.KeyAt(c) == x.Key(li)
    ensures Group(x, out + [(x.left[li], x.RowAt(c))], li, c, si, sj)
  {
    hide CleanGroup, CleanMoved, InOrder, Rereadable, Spoilt, Compare, HasFields;
    EnteredRow(x, c);
    OrderGrows(x, out, li, x.RowAt(c));
    if CleanMoved(x, out, li, c, si, sj) {
      CleanTakes(x, out, li, c, si, sj);
    } else {
      SpoiltTakes(x, out, li, c);
    }
  }

  lemma RestoreStep(x: JoinInput, out: seq<Pair>, li: int, c: Cursor, si: int, sj: int)
    requires x.Ok() && Moved(x, out, li, c, si, sj)
    requires More(c) ==> x.OnRow(c) && x.KeyAt(c) != x.Key(li)
    requires li + 1 < |x.left| && x.Key(li + 1) == x.Key(li)
    ensures var r := c.(i := si, j := sj);
            && CanPass(x.a, x.b, r) && x.OnRow(r)
            && Group(x, out + [(x.left[li + 1], x.RowAt(r))], li + 1, r, si, sj)
  {
    hide CleanGroup, CleanMoved, InOrder, Rereadable, Spoilt, Compare, HasFields;
    var r := c.(i := si, j := sj);
    assert CanPass(x.a, x.b, r);
    OrderNext(x, out, li);
    OrderGrows(x, out, li + 1, x.RowAt(r));
    if CleanMoved(x, out, li, c, si, sj) {
      CleanRestores(x, out, li, c, si, sj);
    } else {
      SpoiltLeft(x, out, li, c);
      SpoiltRestores(x, out, li, r);
    }
  }

  lemma LeaveStep(x: JoinInput, out: seq<Pair>, li: int, c: Cursor, si: int, sj: int)
    requires x.Ok() && Moved(x, out, li, c, si, sj)
    requires More(c) ==> x.OnRow(c) && x.KeyAt(c) != x.Key(li)
    requires li + 1 < |x.left| ==> x.Key(li + 1) != x.Key(li)
    ensures Searching(x, out, li + 1, c)
  {
    hide CleanMoved, CleanSearch, InOrder, Rereadable, Spoilt, SpoiltSearch, Compare, HasFields;
    OrderNext(x, out, li);
    if CleanMoved(x, out, li, c, si, sj) {
      CleanLeaves(x, out, li, c, si, sj);
    } else {
      SpoiltLeft(x, out, li, c);
    }
  }

  lemma SkipLeftStep(x: JoinInput, out: seq<Pair>, li: int, c: Cursor)
    requires x.Ok() && Searching(x, out, li, c) && li < |x.left| && More(c)
    requires x.OnRow(c) && Less(x.Key(li), x.KeyAt(c))
    ensures Searching(x, out, li + 1, c)
  {
    hide CleanSearch, InOrder, Rereadable, Spoilt, Compare, HasFields;
    OrderNext(x, out, li);
    if CleanSearch(x, out, li, c) {
      CleanSkipsLeft(x, out, li, c);
    } else {
      SpoiltLeft(x, out, li, c);
    }
  }

  lemma SkipRightStep(x: JoinInput, out: seq<Pair>, li: int, c: Cursor)
    requires x.Ok() && Searching(x, out, li, c) && li < |x.left| && More(c)
    requires x.OnRow(c) && Less(x.KeyAt(c), x.Key(li))
    ensures CanPass(x.a, x.b, c)
    ensures var n := NextCursor([x.f2], x.a, x.b, c);
            Searching(x, out, li, n) && (More(n) <==> HasNext(x.a, x.b, c))
  {
    hide CleanSearch, InOrder, Rereadable, Compare, HasFields, InReach, NestedLoops, Wrong;
    EnteredRow(x, c);
    EnteredNext(x, c);
    TotalOrder(x.Key(li), x.Key(li));
    ReachPass(x, c, x.Key(li));
    if CleanSearch(x, out, li, c) {
      CleanSkipsRight(x, out, li, c);
    } else {
      ReachSame(x, Pass(x.a, x.b, c), NextCursor([x.f2], x.a, x.b, c).idx, x.Key(li));
    }
  }

  lemma ReachSame(x: JoinInput, c: Cursor, idx: nat, v: Value)
    requires x.Ok() && InBounds(x.a, x.b, c) && idx <= 2
    ensures InReach(x, c.(idx := idx), v) == InReach(x, c, v)
  {}

  lemma EnterStep(x: JoinInput, out: seq<Pair>, li: int, c: Cursor)
    requires x.Ok() && Searching(x, out, li, c) && li < |x.left| && More(c)
    requires x.OnRow(c) && x.Key(li) == x.KeyAt(c)
    ensures Group(x, out + [(x.left[li], x.RowAt(c))], li, c, c.i, c.j)
  {
    hide CleanSearch, CleanGroup, InOrder, Rereadable, Spoilt, Compare, HasFields;
    EnteredRow(x, c);
    OrderGrows(x, out, li, x.RowAt(c));
    if CleanSearch(x, out, li, c) {
      CleanEnters(x, out, li, c);
    } else {
      SpoiltTakes(x, out, li, c);
    }
  }

  lemma EndStep(x: JoinInput, out: seq<Pair>, li: int, c: Cursor)
    requires x.Ok() && Searching(x, out, li, c) && (li == |x.left| || !More(c))
    ensures Finished(x, out)
  {
    hide CleanSearch, Rereadable, Compare, HasFields, NestedLoops;
    DoneAll(x);
    RightHas(x);
    if CleanSearch(x, out, li, c) {
      CleanEnds(x, out, li, c);
      assert x.b == [] ==> x.Right() == x.a;
    } else {
      if x.b == [] {
        OneRunGood(x);
      }
      if li < |x.left| {
        SpoiltLeft(x, out, li, c);
        DoneGrows(x, li + 1, |x.left|);
      }
      NotComplete(x, out);
    }
  }

  /** Neither a list with a wrong pair nor a shorter one is the join. */
  lemma NotComplete(x: JoinInput, out: seq<Pair>)
    requires x.Ok() && (Wrong(x, out) || |out| < |x.Done(|x.left|)|)
    ensures multiset(out) != multiset(x.Done(|x.left|))
  {
    hide NestedLoops, KeyCount;
    RightHas(x);
    DoneAll(x);
    var all := x.Done(|x.left|);
    if multiset(out) == multiset(all) {
      assert |multiset(out)| == |out| && |multiset(all)| == |all|;
      var p :| p in out && WrongPair(x, p);
      assert p in multiset(all);
      PairMembers(x.left, x.Right(), x.f1, x.f2);
    }
  }

  /** With one run, the pairs delivered are at every moment a prefix of the join by definition. */
  lemma DeliveredPrefix(x: JoinInput, out: seq<Pair>, li: int, c: Cursor, si: int, sj: int)
    requires x.Ok() && x.b == [] && Group(x, out, li, c, si, sj)
    ensures out <= NestedLoops(x.left, x.a, x.f1, x.f2)
  {
    hide PairsWith, NestedLoops, LessEq, Less, Judged, Spoilt, Rereadable, Frontier, Between, InOrder;
    OneRunGood(x);
    var l, p := x.left[li], Pass(x.a, x.b, c);
    assert l in x.left && x.Right() == x.a && x.b[..p.j] == [];
    NoPairsOfNone(l, x.f1, x.f2);
    LoopsPrefix(x.left, x.a, x.f1, x.f2, li + 1);
    LoopsStep(x.left, x.a, x.f1, x.f2, li);
    PairsPrefix(l, x.a, x.f1, x.f2, p.i);
  }

  // ---------------------------------------------------------------------------------------------
  // A second pass over one run
  // ---------------------------------------------------------------------------------------------

  /** Place `si` is the first one of the group of `v`. */
  ghost predicate SavedGroup(x: JoinInput, v: Value, si: int)
    requires x.Ok()
  {
    Frontier(x, si, 0, v) && si < |x.a| && x.KeyA(si) == v
  }

  lemma GroupSaved(x: JoinInput, out: seq<Pair>, li: int, c: Cursor, si: int, sj: int)
    requires x.Ok() && Group(x, out, li, c, si, sj) && x.b == []
    ensures SavedGroup(x, x.Key(li), si) && sj == 0 && Common(x, x.Key(li))
  {
    hide Same, Judged, Spoilt, NestedLoops, PairsWith, Rereadable;
    OneRunGood(x);
    LeftKey(x, li);
    assert x.KeyA(si) == x.a[si][x.f2];
  }

  /** The first call makes the first row current. */
  lemma FirstRow(x: JoinInput)
    requires x.Ok() && x.b == []
    ensures var c := NextCursor([x.f2], x.a, x.b, FirstCursor(x.a, x.b));
            (More(c) <==> x.a != []) && (More(c) ==> x.OnRow(c) && x.KeyAt(c) == x.KeyA(0))
  {}

  /** The first call makes the first row current; then the scan can go back to a saved group. */
  lemma AgainCursor(x: JoinInput, v: Value, si: int)
    requires x.Ok() && x.b == [] && SavedGroup(x, v, si)
    ensures NextCursor([x.f2], x.a, x.b, FirstCursor(x.a, x.b)).(i := si, j := 0) == Cursor(si, 0, 1, true, false)
    ensures CanPass(x.a, x.b, Cursor(si, 0, 1, true, false))
  {}

  lemma AgainClean(x: JoinInput, v: Value, si: int)
    requires x.Ok() && x.b == [] && SavedGroup(x, v, si) && x.left != [] && x.Key(0) == v
    ensures CleanGroup(x, [(x.left[0], x.a[si])], 0, Cursor(si, 0, 1, true, false), si, 0)
  {
    assert x.left[..0] == [];
    assert x.Done(0) == [];
    hide NestedLoops, PairsWith, GoodValue, Compare, HasFields;
    PartFirst(x, [], 0, Cursor(si, 0, 1, true, false));
    assert [] + [(x.left[0], x.a[si])] == [(x.left[0], x.a[si])];
  }

  /** The first call of a pass that begins with the value of an earlier one, when the first left row has it. */
  lemma AgainStep(x: JoinInput, v: Value, si: int)
    requires x.Ok() && x.b == [] && SavedGroup(x, v, si) && x.left != [] && x.Key(0) == v
    ensures var c := NextCursor([x.f2], x.a, x.b, FirstCursor(x.a, x.b));
            var r := c.(i := si, j := 0);
            && CanPass(x.a, x.b, r) && x.OnRow(r)
            && Group(x, [(x.left[0], x.RowAt(r))], 0, r, si, 0)
  {
    hide CleanGroup, InOrder, NextCursor, Rereadable, Spoilt;
    AgainCursor(x, v, si);
    AgainClean(x, v, si);
    OnePair(x, x.a[si]);
  }

  lemma OnePair(x: JoinInput, r: Row)
    requires x.Ok() && x.left != []
    ensures InOrder(x, [(x.left[0], r)], 0)
  {
    assert x.left[0] in x.left;
    TotalOrder(x.Key(0), x.Key(0));
  }

  predicate Common(x: JoinInput, v: Value)
    requires x.Ok()
  {
    HasKey(x.left, x.f1, v) && HasKey(x.a, x.f2, v)
  }

  /** The smallest right value is the largest common one. */
  ghost predicate SmallestIsLargest(x: JoinInput)
    requires x.Ok()
  {
    x.a != [] && Common(x, x.KeyA(0)) && forall v | Common(x, v) :: LessEq(v, x.KeyA(0))
  }

  /** The last pair of a complete join has the largest common value. */
  lemma LastIsLargest(x: JoinInput, out: seq<Pair>)
    requires x.Ok() && x.b == [] && out == NestedLoops(x.left, x.a, x.f1, x.f2)
    ensures out == [] ==> forall v :: !Common(x, v)
    ensures out != [] ==> x.f1 in out[|out| - 1].0 && Common(x, out[|out| - 1].0[x.f1])
    ensures out != [] ==> forall v | Common(x, v) :: LessEq(v, out[|out| - 1].0[x.f1])
  {
    hide NestedLoops;
    KeyOrder(x.left, x.a, x.f1, x.f2);
    PairMembers(x.left, x.a, x.f1, x.f2);
    if out != [] {
      var p := out[|out| - 1];
      assert p in out;
      var i :| 0 <= i < |x.left| && x.left[i] == p.0;
      var j :| 0 <= j < |x.a| && x.a[j] == p.1;
    }
    forall v | Common(x, v)
      ensures out != [] && x.f1 in out[|out| - 1].0 && LessEq(v, out[|out| - 1].0[x.f1])
    {
      CommonPair(x, out, v);
      var k :| 0 <= k < |out| && x.f1 in out[k].0 && out[k].0[x.f1] == v;
    }
  }

  /** A value that is the largest common one, if there is one. */
  lemma LargestFirst(x: JoinInput, v: Option<Value>)
    requires x.Ok() && (v.None? ==> forall w :: !Common(x, w))
    requires v.Some? ==> Common(x, v.value) && forall w | Common(x, w) :: LessEq(w, v.value)
    ensures v.Some? && x.a != [] && x.KeyA(0) == v.value <==> SmallestIsLargest(x)
  {
    if SmallestIsLargest(x) && v.Some? {
      TotalOrder(v.value, x.KeyA(0));
      assert LessEq(v.value, x.KeyA(0)) && LessEq(x.KeyA(0), v.value);
    }
  }

  lemma CommonPair(x: JoinInput, out: seq<Pair>, v: Value)
    requires x.Ok() && x.b == [] && out == NestedLoops(x.left, x.a, x.f1, x.f2) && Common(x, v)
    ensures exists k :: 0 <= k < |out| && x.f1 in out[k].0 && out[k].0[x.f1] == v
  {
    hide NestedLoops;
    var i :| 0 <= i < |x.left| && x.left[i][x.f1] == v;
    var j :| 0 <= j < |x.a| && x.a[j][x.f2] == v;
    var p := (x.left[i], x.a[j]);
    JoinCount(x.left, x.a, x.f1, x.f2, p);
    assert x.left[i] in multiset(x.left) && x.a[j] in multiset(x.a);
    Positive(multiset(x.left)[p.0], multiset(x.a)[p.1]);
    assert p in multiset(out);
    var k :| 0 <= k < |out| && out[k] == p;
  }

  lemma Positive(m: nat, n: nat)
    requires m > 0 && n > 0
    ensures m * n > 0
  {}
}

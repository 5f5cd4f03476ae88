/**
 `SortScan`: reads one or two sorted runs as one, with a position that can be saved and restored.
 */
module SortScans {
  import opened Types
  import opened Ordering
  import opened Sorting
  import opened Materialize
  import opened ScanRests

  /** The heads at `i` and `j` are what is left of the merge of two runs, after its first `k` rows. */
  ghost predicate At(fields: seq<Str>, a: seq<Row>, b: seq<Row>, i: int, j: int, k: int)
    requires AllHave(a, fields) && AllHave(b, fields)
  {
    && 0 <= i <= |a| && 0 <= j <= |b| && 0 <= k <= |Merge(fields, a, b)|
    && Merge(fields, a, b)[k..] == Merge(fields, a[i..], b[j..])
  }

  /** The row that the merge takes from its heads at `i` and `j` is in the first run. */
  ghost predicate TakesFirst(fields: seq<Str>, a: seq<Row>, b: seq<Row>, i: int, j: int)
    requires AllHave(a, fields) && AllHave(b, fields)
  {
    0 <= i < |a| && 0 <= j <= |b| && (j == |b| || Compare(fields, a[i], b[j]) < 0)
  }

  /** The heads are at `i` and `j`, the `k`-th row is current and in run `idx`, and the flags say what is left. */
  ghost predicate Place(fields: seq<Str>, a: seq<Row>, b: seq<Row>,
                        i: int, j: int, k: int, idx: int, more1: bool, more2: bool)
    requires AllHave(a, fields) && AllHave(b, fields)
  {
    && k > 0 && At(fields, a, b, i, j, k - 1) && (i < |a| || j < |b|)
    && 1 <= idx <= 2 && (idx == 1 <==> TakesFirst(fields, a, b, i, j))
    && (idx == 1 ==> (more2 <==> j < |b|))
    && (idx == 2 ==> (more1 <==> i < |a|))
  }

  lemma Starts(fields: seq<Str>, a: seq<Row>, b: seq<Row>)
    requires AllHave(a, fields) && AllHave(b, fields)
    ensures At(fields, a, b, 0, 0, 0)
  {
    assert a[0..] == a && b[0..] == b && Merge(fields, a, b)[0..] == Merge(fields, a, b);
  }

  /** The heads after the current row has been passed. */
  lemma Passes(fields: seq<Str>, a: seq<Row>, b: seq<Row>, i: int, j: int, k: int)
    requires AllHave(a, fields) && AllHave(b, fields)
    requires At(fields, a, b, i, j, k) && (i < |a| || j < |b|)
    ensures k < |Merge(fields, a, b)| && 0 <= i <= |a| && 0 <= j <= |b|
    ensures TakesFirst(fields, a, b, i, j) ==>
              i < |a| && At(fields, a, b, i + 1, j, k + 1) && Merge(fields, a, b)[k] == a[i]
    ensures !TakesFirst(fields, a, b, i, j) ==>
              j < |b| && At(fields, a, b, i, j + 1, k + 1) && Merge(fields, a, b)[k] == b[j]
  {
    hide Compare, HasFields;
    var all := Merge(fields, a, b);
    MergeNext(fields, a, b, i, j);
    assert all[k..] != [];
    assert all[k..][1..] == all[k + 1..] && all[k..][0] == all[k];
  }

  /** The next row becomes the current one. */
  lemma Enters(fields: seq<Str>, a: seq<Row>, b: seq<Row>, i: int, j: int, k: int, idx: int, more1: bool, more2: bool)
    requires AllHave(a, fields) && AllHave(b, fields) && At(fields, a, b, i, j, k)
    requires (more1 <==> i < |a|) && (more2 <==> j < |b|) && (more1 || more2)
    requires idx == if ChoosesFirst(fields, a, b, i, j, more1, more2) then 1 else 2
    ensures k < |Merge(fields, a, b)| && Place(fields, a, b, i, j, k + 1, idx, more1, more2)
  {
    hide Compare, HasFields, Merge;
    assert TakesFirst(fields, a, b, i, j) <==> ChoosesFirst(fields, a, b, i, j, more1, more2);
    hide TakesFirst;
    Passes(fields, a, b, i, j, k);
  }

  /** What is known while a row is current, and how it is passed. */
  lemma Leaves(fields: seq<Str>, a: seq<Row>, b: seq<Row>, i: int, j: int, k: int, idx: int, more1: bool, more2: bool)
    requires AllHave(a, fields) && AllHave(b, fields) && Place(fields, a, b, i, j, k, idx, more1, more2)
    ensures 0 < k <= |Merge(fields, a, b)| && 0 <= i <= |a| && 0 <= j <= |b| && 1 <= idx <= 2
    ensures idx == 1 ==> i < |a| && Merge(fields, a, b)[k - 1] == a[i] && At(fields, a, b, i + 1, j, k)
    ensures idx == 2 ==> j < |b| && Merge(fields, a, b)[k - 1] == b[j] && At(fields, a, b, i, j + 1, k)
    ensures (idx == 1 ==> (more2 <==> j < |b|)) && (idx == 2 ==> (more1 <==> i < |a|))
  {
    hide Compare, HasFields, TakesFirst, Merge;
    Passes(fields, a, b, i, j, k - 1);
  }

  /** One place has one current run and, for the other run, one flag. */
  lemma SamePlace(fields: seq<Str>, a: seq<Row>, b: seq<Row>, i: int, j: int, k: int,
                  idx: int, more1: bool, more2: bool, idx': int, more1': bool, more2': bool)
    requires AllHave(a, fields) && AllHave(b, fields) && Place(fields, a, b, i, j, k, idx, more1, more2)
    ensures Place(fields, a, b, i, j, k, idx', more1', more2') <==>
            idx' == idx && (idx == 1 ==> more2' == more2) && (idx == 2 ==> more1' == more1)
  {
    hide Compare, HasFields, TakesFirst, At;
  }

  /** The cursor is in front of the first row or on the `k`-th row of the merge, as `next` leaves it. */
  ghost predicate Standing(fields: seq<Str>, a: seq<Row>, b: seq<Row>, c: Cursor, k: int)
    requires AllHave(a, fields) && AllHave(b, fields)
  {
    if c.idx == 0 then k == 0 && At(fields, a, b, c.i, c.j, 0) && (c.more1 <==> c.i < |a|) && (c.more2 <==> c.j < |b|)
    else Place(fields, a, b, c.i, c.j, k, c.idx, c.more1, c.more2)
  }

  lemma StandingPasses(fields: seq<Str>, a: seq<Row>, b: seq<Row>, c: Cursor, k: int)
    requires AllHave(a, fields) && AllHave(b, fields) && Standing(fields, a, b, c, k) && CanPass(a, b, c)
    ensures var p := Pass(a, b, c);
            && InBounds(a, b, p) && At(fields, a, b, p.i, p.j, k)
            && (p.more1 <==> p.i < |a|) && (p.more2 <==> p.j < |b|)
  {
    hide Compare, HasFields, Merge, At, TakesFirst, Place;
    if c.idx > 0 {
      Leaves(fields, a, b, c.i, c.j, k, c.idx, c.more1, c.more2);
    }
  }

  /** A call of `next` goes on to the next row of the merge, or to its end. */
  lemma StandingNext(fields: seq<Str>, a: seq<Row>, b: seq<Row>, c: Cursor, k: int)
    requires AllHave(a, fields) && AllHave(b, fields) && Standing(fields, a, b, c, k) && CanPass(a, b, c)
    ensures 0 <= k <= |Merge(fields, a, b)| && (HasNext(a, b, c) <==> k < |Merge(fields, a, b)|)
    ensures HasNext(a, b, c) ==> Standing(fields, a, b, NextCursor(fields, a, b, c), k + 1)
    ensures !HasNext(a, b, c) ==> AtEnd(a, b, NextCursor(fields, a, b, c))
  {
    hide Compare, HasFields, Merge, At, TakesFirst, Place, ChoosesFirst;
    StandingPasses(fields, a, b, c, k);
    var p := Pass(a, b, c);
    AtBounds(fields, a, b, p.i, p.j, k);
    if HasNext(a, b, c) {
      Enters(fields, a, b, p.i, p.j, k, NextCursor(fields, a, b, c).idx, p.more1, p.more2);
    }
  }

  /** Both runs are exhausted, and the flags say so. */
  predicate AtEnd(a: seq<Row>, b: seq<Row>, c: Cursor) {
    c.i == |a| && c.j == |b| && !c.more1 && !c.more2 && c.idx <= 2
  }

  lemma AtBounds(fields: seq<Str>, a: seq<Row>, b: seq<Row>, i: int, j: int, k: int)
    requires AllHave(a, fields) && AllHave(b, fields) && At(fields, a, b, i, j, k)
    ensures 0 <= i <= |a| && 0 <= j <= |b| && 0 <= k <= |Merge(fields, a, b)|
    ensures i == |a| && j == |b| ==> k == |Merge(fields, a, b)|
    ensures |Merge(fields, a, b)| - k == |a| - i + |b| - j
  {
    Lengths(fields, a, b, i, j);
    assert |Merge(fields, a, b)[k..]| == |Merge(fields, a, b)| - k;
  }

  /** Puts a cursor on the first row. */
  method ToFirst(c: TempScan) returns (more: bool)
    modifies c
    ensures c.pos == 0 && (more <==> c.table.rows != [])
  {
    c.BeforeFirst();
    more := c.Next();
  }

  class SortScan {
    const sortFields: seq<Str>
    const s1: TempScan
    const s2: TempScan?
    var currentidx: nat              // 0 before the first row, then 1 or 2
    var hasmore1: bool
    var hasmore2: bool
    var saved1: Option<nat>          // nothing for a run that was exhausted
    var saved2: Option<nat>
    ghost var taken: nat             // rows delivered so far, the current one included
    ghost var ended: bool            // the last call of Next returned false
    ghost var hasSaved: bool
    ghost var savedTaken: nat        // what was true when the position was saved
    ghost var savedAt: Cursor
    ghost var savedSound: bool       // the scan stood on the row that it should have delivered

    ghost function Footprint(): set<object>
    {
      {this, s1, s1.table} + if s2 != null then {s2, s2.table} else {}
    }

    ghost function Tables(): set<object>
    {
      {s1.table} + if s2 != null then {s2.table} else {}
    }

    ghost function Run1(): seq<Row>
      reads s1.table
    {
      s1.table.rows
    }

    ghost function Run2(): seq<Row>
      reads if s2 != null then {s2.table} else {}
    {
      if s2 != null then s2.table.rows else []
    }

    function Pos2(): int
      reads if s2 != null then {s2} else {}
    {
      if s2 != null then s2.pos else 0
    }

    ghost function Here(): Cursor
      reads this, s1, if s2 != null then {s2} else {}
    {
      Cursor(s1.pos, Pos2(), currentidx, hasmore1, hasmore2)
    }

    ghost predicate Comparable()
      reads Tables()
    {
      AllHave(Run1(), sortFields) && AllHave(Run2(), sortFields)
    }

    /** All rows, in the order of delivery. */
    ghost function Output(): seq<Row>
      requires Comparable()
      reads Tables()
    {
      Merge(sortFields, Run1(), Run2())
    }

    /** What no operation breaks, not even a restore that goes wrong. */
    ghost predicate Shape()
      reads Footprint()
    {
      && s1 != s2 && (s2 != null ==> s2.table != s1.table)
      && Comparable() && InBounds(Run1(), Run2(), Here())
      && (s2 == null ==> !hasmore2 && currentidx <= 1)
      && SavedWell()
    }

    /** The scan may be moved on: no call will read behind the end of a run. */
    ghost predicate CanGoOn()
      reads Footprint()
    {
      Shape() && !ended && CanPass(Run1(), Run2(), Here())
    }

    /** The scan is in front of the first row, on the row that it delivered last, or at its end. */
    ghost predicate Valid()
      reads Footprint()
    {
      && Shape()
      && (if ended then taken == |Output()| && AtEnd(Run1(), Run2(), Here())
          else CanGoOn() && Standing(sortFields, Run1(), Run2(), Here(), taken))
    }

    /** The flag of the run that is not the current one. */
    function OtherMore(): bool
      reads `currentidx, `hasmore1, `hasmore2
    {
      if currentidx == 1 then hasmore2 else hasmore1
    }

    /** The rows that `Next` is going to deliver, behind the current one, which comes first. */
    ghost function ToCome(): Option<seq<Row>>
      requires Shape()
      reads Footprint()
    {
      RestOf(sortFields, Run1(), Run2(), Here())
    }

    /** An exhausted run has no place to go back to. */
    ghost function Saved1(): nat
      reads `saved1, s1.table
    {
      if saved1.Some? then saved1.value else |Run1()|
    }

    ghost function Saved2(): nat
      reads `saved2, if s2 != null then {s2.table} else {}
    {
      if saved2.Some? then saved2.value else |Run2()|
    }

    /** The saved places are those that went with the saved row. */
    ghost predicate SavedWell()
      reads `saved1, `saved2, `hasSaved, `savedTaken, `savedAt, `savedSound, Tables()
    {
      if !hasSaved then saved1.None? && saved2.None?
      else
        && (saved1.Some? ==> saved1.value < |Run1()|) && (saved2.Some? ==> s2 != null && saved2.value < |Run2()|)
        && (s2 == null ==> savedAt.idx == 1 && !savedAt.more2)
        && savedAt.i == Saved1() && savedAt.j == Saved2() && CanPass(Run1(), Run2(), savedAt) && savedAt.idx > 0
        && (savedSound && Comparable() ==> Standing(sortFields, Run1(), Run2(), savedAt, savedTaken))
    }

    ghost predicate OnRow()
      reads Footprint()
    {
      Valid() && currentidx > 0 && !ended
    }

    /** Two runs have two tables, which no other cursor of the scan uses. */
    constructor (runs: seq<TempTable>, sortFields: seq<Str>)
      requires 1 <= |runs| <= 2 && (|runs| == 2 ==> runs[0] != runs[1])
      requires forall t | t in runs :: AllHave(t.rows, sortFields)
      ensures Valid() && this.sortFields == sortFields && taken == 0 && !ended && !hasSaved
      ensures s1.table == runs[0] && fresh(s1) && (|runs| == 1 <==> s2 == null)
      ensures |runs| == 2 ==> s2 != null && s2.table == runs[1] && fresh(s2)
      ensures Here() == FirstCursor(Run1(), Run2())
    {
      hide Compare, HasFields, Merge, At, Place, TakesFirst;
      this.sortFields := sortFields;
      currentidx := 0;
      saved1, saved2, hasSaved, taken, ended := None, None, false, 0, false;
      savedTaken, savedAt, savedSound := 0, Cursor(0, 0, 0, false, false), false;
      var c1 := new TempScan(runs[0]);
      var c2: TempScan? := null;
      var more1 := c1.Next();
      var more2 := false;
      if |runs| > 1 {
        c2 := new TempScan(runs[1]);
        more2 := c2.Next();
      }
      s1, s2, hasmore1, hasmore2 := c1, c2, more1, more2;
      new;
      Starts(sortFields, Run1(), Run2());
    }

    method BeforeFirst()
      requires Shape()
      modifies this`currentidx, this`hasmore1, this`hasmore2, this`taken, this`ended, s1, s2
      ensures Valid() && taken == 0 && !ended && Here() == FirstCursor(Run1(), Run2())
    {
      hide Compare, HasFields, Merge, At, Place, TakesFirst;
      currentidx := 0;
      hasmore1 := ToFirst(s1);
      if s2 != null {
        hasmore2 := ToFirst(s2);
      }
      taken, ended := 0, false;
      Starts(sortFields, Run1(), Run2());
    }

    /** Passes the current row. */
    method Advance()
      requires CanGoOn()
      modifies this`hasmore1, this`hasmore2, s1, s2
      ensures Shape() && !ended && Here() == Pass(Run1(), Run2(), old(Here()))
    {
      hide Compare, HasFields, AllHave, Standing;
      if currentidx == 1 {
        hasmore1 := s1.Next();
      } else if currentidx == 2 && s2 != null {
        hasmore2 := s2.Next();
      }
    }

    /** `currentidx_` as the comparison of the two heads sets it. */
    method Choose() returns (idx: nat)
      requires Shape() && (hasmore1 || hasmore2)
      requires hasmore1 && hasmore2 ==> s1.pos < |Run1()| && Pos2() < |Run2()|
      ensures idx == if ChoosesFirst(sortFields, Run1(), Run2(), s1.pos, Pos2(), hasmore1, hasmore2) then 1 else 2
      ensures idx == 2 ==> s2 != null
    {
      hide Compare, HasFields;
      if hasmore1 && hasmore2 {
        assert Run1()[s1.pos] in Run1() && Run2()[Pos2()] in Run2();
        var c := CompareScans(sortFields, s1, s2);
        if c < 0 {
          idx := 1;
        } else {
          idx := 2;
        }
      } else if hasmore1 {
        idx := 1;
      } else {
        idx := 2;
      }
    }

    /** Makes the smaller head the current row. */
    method EnterRow() returns (more: bool)
      requires Shape() && !ended && CanPass(Run1(), Run2(), Here().(idx := 0))
      modifies this`currentidx, this`taken, this`ended
      ensures Shape() && Here() == Enter(sortFields, Run1(), Run2(), old(Here()))
      ensures more <==> hasmore1 || hasmore2
      ensures more ==> !ended && taken == old(taken) + 1
      ensures !more ==> ended && taken == old(taken)
    {
      hide Compare, HasFields, AllHave, Standing, ChoosesFirst;
      more := hasmore1 || hasmore2;
      if !more {
        ended := true;
        return;
      }
      currentidx := Choose();
      taken := taken + 1;
    }

    /**
     Goes on by one row, in any state from which that reads nothing behind the end of a run: the fields change as
     `NextCursor` says. So the rows come in the order of `Output`, and all of them come; and in a state that a restore
     has left, the rows of `ToCome` come.
     */
    method Next() returns (more: bool)
      requires CanGoOn()
      modifies this`currentidx, this`hasmore1, this`hasmore2, this`taken, this`ended, s1, s2
      ensures Shape() && Run1() == old(Run1()) && Run2() == old(Run2())
      ensures Here() == NextCursor(sortFields, Run1(), Run2(), old(Here()))
      ensures more <==> HasNext(Run1(), Run2(), old(Here()))
      ensures more ==> CanGoOn() && currentidx > 0 && taken == old(taken) + 1
      ensures !more ==> ended && taken == old(taken) && currentidx == old(currentidx)
      ensures old(Valid()) ==> Valid() && (more <==> old(taken) < |Output()|)
      ensures old(currentidx) > 0 ==> old(ToCome()).Some? && (more <==> |old(ToCome()).value| > 1)
      ensures old(currentidx) > 0 && more ==> ToCome() == Some(old(ToCome()).value[1..])
    {
      hide Compare, HasFields, AllHave, Standing, Rest, ChoosesFirst, SavedWell;
      ghost var a, b, c, sound := Run1(), Run2(), Here(), Valid();
      NextCanPass(sortFields, a, b, c);
      if c.idx > 0 {
        RestOfNext(sortFields, a, b, c);
      }
      if sound {
        StandingNext(sortFields, a, b, c, taken);
      }
      Advance();
      more := EnterRow();
    }

    /** The current row is the last one delivered. */
    lemma CurrentRow()
      requires OnRow()
      ensures 0 < taken <= |Output()| && 1 <= currentidx <= 2
      ensures currentidx == 1 ==> s1.OnRow() && s1.Current() == Output()[taken - 1]
      ensures currentidx == 2 ==> s2 != null && s2.OnRow() && s2.Current() == Output()[taken - 1]
    {
      hide Compare, HasFields, Merge, At, Place, TakesFirst, SavedWell;
      Leaves(sortFields, Run1(), Run2(), s1.pos, Pos2(), taken, currentidx, hasmore1, hasmore2);
    }

    /** Reads the current row of the current run. */
    method GetVal(f: Str) returns (v: Value)
      requires 1 <= currentidx <= 2
      requires currentidx == 1 ==> s1.OnRow() && f in s1.Current()
      requires currentidx == 2 ==> s2 != null && s2.OnRow() && f in s2.Current()
      ensures currentidx == 1 ==> v == s1.Current()[f]
      ensures currentidx == 2 ==> v == s2.Current()[f]
    {
      if currentidx == 1 {
        v := s1.GetVal(f);
      } else {
        v := s2.GetVal(f);
      }
    }

    /** A position is saved as the two places in the runs, without the fields that go with them. */
    method SavePosition()
      requires CanGoOn() && currentidx > 0
      modifies this`saved1, this`saved2, this`hasSaved, this`savedTaken, this`savedAt, this`savedSound
      ensures CanGoOn() && (savedSound <==> old(Valid())) && (Valid() <==> old(Valid()))
      ensures hasSaved && savedTaken == taken && savedAt == Here()
    {
      hide Compare, HasFields, AllHave, Standing;
      ghost var a, b, c, sound := Run1(), Run2(), Here(), Valid();
      var rid1 := s1.GetRid();
      var rid2 := None;
      if s2 != null {
        rid2 := s2.GetRid();
      }
      saved1, saved2 := rid1, rid2;
      hasSaved, savedTaken, savedAt, savedSound := true, taken, c, sound;
      assert Run1() == a && Run2() == b && Here() == c;
      assert SavedWell();
    }

    /** The fields that a restored position needs are those of the time when it was saved. */
    ghost predicate FlagsAsSaved()
      reads this
    {
      && currentidx == savedAt.idx
      && (currentidx == 1 ==> hasmore2 == savedAt.more2)
      && (currentidx == 2 ==> hasmore1 == savedAt.more1)
    }

    /** A run that was exhausted when the position was saved is not moved. */
    ghost function Restored(): Cursor
      reads this, s1, if s2 != null then {s2} else {}
    {
      Here().(i := if saved1.Some? then saved1.value else s1.pos, j := if saved2.Some? then saved2.value else Pos2())
    }

    /** Runs that were exhausted then are exhausted now. */
    ghost predicate StillExhausted()
      reads this, s1, s1.table, if s2 != null then {s2, s2.table} else {}
    {
      (saved1.None? ==> s1.pos == |Run1()|) && (saved2.None? ==> Pos2() == |Run2()|)
    }

    /**
     The current run has a row at its saved place, which sorts like the saved row, and the flag of the other run says
     whether that one has rows from its saved place on.
     */
    ghost predicate RestoresRows()
      requires Comparable() && Saved1() <= |Run1()| && Saved2() <= |Run2()|
      reads this, Tables()
    {
      GoodState(sortFields, Run1(), Run2(), Saved1(), Saved2(), currentidx, OtherMore())
    }

    lemma SavedPlace()
      requires Shape() && hasSaved && savedSound
      ensures Saved1() <= |Run1()| && Saved2() <= |Run2()| && (Saved1() < |Run1()| || Saved2() < |Run2()|)
      ensures 0 < savedTaken <= |Output()| && 1 <= savedAt.idx <= 2
      ensures Output()[savedTaken - 1..] == Merge(sortFields, Run1()[Saved1()..], Run2()[Saved2()..])
    {
      hide Compare, HasFields, Merge, TakesFirst;
      Leaves(sortFields, Run1(), Run2(), Saved1(), Saved2(), savedTaken, savedAt.idx, savedAt.more1, savedAt.more2);
    }

    /** The scan is back at the saved places. */
    ghost predicate IsBack()
      reads Footprint()
    {
      && Shape() && hasSaved && savedSound && taken == savedTaken && !ended
      && s1.pos == Saved1() && Pos2() == Saved2()
    }

    /** When it stands on the saved row again. */
    lemma BackOnRow()
      requires IsBack()
      ensures Valid() <==> FlagsAsSaved()
      ensures s2 == null ==> (FlagsAsSaved() <==> currentidx > 0)
    {
      hide Compare, HasFields, Merge, At, TakesFirst;
      SavedPlace();
      SamePlace(sortFields, Run1(), Run2(), Saved1(), Saved2(), savedTaken,
                savedAt.idx, savedAt.more1, savedAt.more2, currentidx, hasmore1, hasmore2);
      Leaves(sortFields, Run1(), Run2(), Saved1(), Saved2(), savedTaken, savedAt.idx, savedAt.more1, savedAt.more2);
    }

    /** When the right rows come. */
    lemma BackDelivers()
      requires IsBack() && Sorted(sortFields, Run1()) && Sorted(sortFields, Run2())
      ensures 0 < savedTaken <= |Output()|
      ensures Delivers(sortFields, ToCome(), Output()[savedTaken - 1..]) <==> RestoresRows()
    {
      hide Compare, HasFields, Merge, Standing, Delivers, Rest, GoodState, SavedWell;
      SavedPlace();
      RestIff(sortFields, Run1(), Run2(), Saved1(), Saved2(), currentidx, OtherMore());
    }

    /**
     Goes back to the saved places, but not to the saved current run and flags, and not with a run that was exhausted.
     If such runs are exhausted still, the scan is where it was when the position was saved exactly if these fields have
     not changed; with one run that means that there is a current row. The rows that come then, the saved one first, are
     the right ones up to the order of rows that sort alike exactly if `RestoresRows` holds.
     */
    method RestorePosition()
      requires Shape()
      modifies this`taken, this`ended, s1, s2
      ensures Shape() && Run1() == old(Run1()) && Run2() == old(Run2()) && Here() == old(Restored())
      ensures if hasSaved then taken == savedTaken && !ended else taken == old(taken) && ended == old(ended)
      ensures hasSaved && savedSound && old(StillExhausted()) ==> (Valid() <==> FlagsAsSaved())
      ensures hasSaved && savedSound && s2 == null ==> (Valid() <==> currentidx > 0)
      ensures hasSaved && savedSound ==> 0 < savedTaken <= |Output()|
      ensures hasSaved && savedSound && old(StillExhausted())
              && Sorted(sortFields, Run1()) && Sorted(sortFields, Run2()) ==>
                (Delivers(sortFields, ToCome(), Output()[savedTaken - 1..]) <==> RestoresRows())
    {
      hide Compare, HasFields, Merge, Standing, Delivers, Rest, GoodState;
      if saved1.Some? {
        s1.MoveToRid(saved1.value);
      }
      if saved2.Some? && s2 != null {
        s2.MoveToRid(saved2.value);
      }
      if hasSaved {
        taken, ended := savedTaken, false;
      }
      if hasSaved && savedSound {
        SavedPlace();
      }
      if IsBack() {
        BackOnRow();
        if Sorted(sortFields, Run1()) && Sorted(sortFields, Run2()) {
          BackDelivers();
        }
      }
    }
  }

  lemma TwoRowMerge(f: Str, small: Value, big: Value)
    requires Less(small, big)
    ensures var a, b := [map[f := big]], [map[f := small]];
            && AllHave(a, [f]) && AllHave(b, [f])
            && Merge([f], a, b) == [map[f := small], map[f := big]]
  {
    TotalOrder(small, big);
    var a, b := [map[f := big]], [map[f := small]];
    assert AllHave(a, [f]) && AllHave(b, [f]);
    assert Compare([f], a[0], b[0]) > 0;
    assert b[1..] == [];
  }

  /** A scan of the two runs that an input of a larger and a smaller row is cut into, on its first row. */
  method ScanOfTwo(f: Str, small: Value, big: Value) returns (scan: SortScan)
    requires Less(small, big)
    ensures scan.OnRow() && scan.taken == 1 && fresh(scan.Footprint()) && scan.s2 != null
    ensures scan.Run1() == [map[f := big]] && scan.Run2() == [map[f := small]] && scan.s1.pos == 0 && scan.s2.pos == 0
    ensures scan.Output() == [map[f := small], map[f := big]]
  {
    hide Compare, HasFields, Merge, Standing, SortScan.SavedWell, Less;
    TwoRowMerge(f, small, big);
    TotalOrder(small, big);
    var t1 := new TempTable();
    var t2 := new TempTable();
    t1.rows, t2.rows := [map[f := big]], [map[f := small]];
    scan := new SortScan([t1, t2], [f]);
    var _ := scan.Next();
  }

  /** With two runs a restored scan can show another row than the one whose position was saved. */
  method RestoreReadsOtherRow(f: Str, small: Value, big: Value) returns (saved: Value, restored: Value)
    requires Less(small, big)
    ensures saved == small && restored == big != small
  {
    hide Compare, HasFields, Merge, Standing, Less, Rest, GoodState, SortScan.RestoresRows;
    TotalOrder(small, big);
    var scan := ScanOfTwo(f, small, big);
    scan.CurrentRow();
    scan.SavePosition();
    saved := scan.GetVal(f);
    var _ := scan.Next();
    scan.CurrentRow();
    assert scan.currentidx == 1;
    scan.RestorePosition();
    restored := scan.GetVal(f);
  }
}

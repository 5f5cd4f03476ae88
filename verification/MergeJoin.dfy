/**
 `MergeJoinScan`: a join of two sorted scans that goes back to the beginning of a group of equal right
 rows for every left row of the group.
 */
module MergeJoin {
  import opened Types
  import opened Ordering
  import opened Sorting
  import opened Materialize
  import opened ScanRests
  import opened SortScans
  import opened Joins
  import opened JoinStates
  import opened JoinSteps

  class MergeJoinScan {
    const s1: SortScan
    const s2: SortScan
    const fldname1: Str
    const fldname2: Str
    var joinval: Option<Value>
    ghost var out: seq<Pair>          // the pairs delivered so far
    ghost var ended: bool

    ghost function Footprint(): set<object>
    {
      {this} + s1.Footprint() + s2.Footprint()
    }

    /** The left rows in the order of delivery, and the runs of the right side. */
    ghost function Input(): JoinInput
      requires s1.Comparable()
      reads s1.Tables(), s2.Tables()
    {
      JoinInput(s1.Output(), fldname1, s2.Run1(), s2.Run2(), fldname2)
    }

    /** Both sides are sorted on their join fields; each of them reads one or two runs. */
    ghost predicate Wired()
      reads s1.Footprint(), s2.Footprint()
    {
      && s1.Valid() && s2.Shape() && s1.Footprint() !! s2.Footprint() && s2.sortFields == [fldname2]
      && this !in s1.Footprint() && this !in s2.Footprint() && Input().Ok()
    }

    /** The join value is that of the last pair, and with one run the saved place is the beginning of its group. */
    ghost predicate Kept()
      requires Wired()
      reads this, s1.Footprint(), s2.Footprint()
    {
      && (joinval.Some? ==> s2.hasSaved && (s2.s2 == null ==> Remembered(joinval.value)))
      && (out != [] ==> fldname1 in out[|out| - 1].0 && joinval == Some(out[|out| - 1].0[fldname1]))
    }

    /** A common value, with the saved place at the beginning of its group. */
    ghost predicate Remembered(v: Value)
      requires Wired()
      reads s1.Footprint(), s2.Footprint()
    {
      SavedGroup(Input(), v, s2.Saved1()) && Common(Input(), v)
    }

    /** In front of the first left row; the join value may be that of an earlier pass over one run. */
    ghost predicate AtStart()
      reads this, s1.Footprint(), s2.Footprint()
    {
      && Wired() && out == [] && s1.taken == 0 && !s1.ended
      && s2.CanGoOn() && s2.Here() == FirstCursor(s2.Run1(), s2.Run2())
      && (joinval.Some? ==> s2.s2 == null)
    }

    /** On the pair that was delivered last. */
    ghost predicate OnPair()
      reads this, s1.Footprint(), s2.Footprint()
    {
      && Wired() && joinval.Some? && s1.OnRow() && 0 < s1.taken <= |Input().left| && s2.CanGoOn()
      && joinval.value == Input().Key(s1.taken - 1)
      && Group(Input(), out, s1.taken - 1, s2.Here(), s2.Saved1(), s2.Saved2())
    }

    ghost predicate Valid()
      reads Footprint()
    {
      && Wired() && Kept()
      && (if ended then Finished(Input(), out) else AtStart() || OnPair())
    }

    constructor (s1: SortScan, s2: SortScan, fldname1: Str, fldname2: Str)
      requires s1.Valid() && s2.Valid() && s1.Footprint() !! s2.Footprint() && s2.sortFields == [fldname2]
      requires SortedOn(s1.Output(), fldname1) && SortedOn(s2.Run1(), fldname2) && SortedOn(s2.Run2(), fldname2)
      requires s1.taken == 0 && !s1.ended && !s2.ended && s2.Here() == FirstCursor(s2.Run1(), s2.Run2())
      ensures Valid() && out == [] && !ended && joinval.None? && this.s1 == s1 && this.s2 == s2
      ensures this.fldname1 == fldname1 && this.fldname2 == fldname2
    {
      hide Compare, HasFields, Merge, SortedOn, NestedLoops, Standing;
      this.s1, this.s2, this.fldname1, this.fldname2 := s1, s2, fldname1, fldname2;
      joinval, out, ended := None, [], false;
    }

    // -------------------------------------------------------------------------------------------
    // The two scans
    // -------------------------------------------------------------------------------------------

    /** The rows in front of the current left row, or all rows if the left scan has ended. */
    ghost function Passed(more1: bool): nat
      reads s1
    {
      if more1 && s1.taken > 0 then s1.taken - 1 else s1.taken
    }

    ghost predicate LeftStands(more1: bool)
      reads s1.Footprint()
    {
      && s1.Valid()
      && (if more1 then s1.OnRow() && 0 < s1.taken <= |s1.Output()| else s1.ended && s1.taken == |s1.Output()|)
    }

    ghost predicate RightStands(more2: bool)
      reads s2.Footprint()
    {
      && s2.Shape() && (more2 <==> More(s2.Here()))
      && (more2 ==> s2.CanGoOn() && s2.currentidx > 0)
    }

    /** Moves the left scan; the right one keeps its place. */
    method NextLeft() returns (more1: bool)
      requires Wired() && !s1.ended
      modifies s1, s1.s1, s1.s2
      ensures Wired() && Input() == old(Input()) && LeftStands(more1) && Passed(more1) == old(s1.taken)
      ensures s2.Here() == old(s2.Here()) && s2.ended == old(s2.ended) && s2.hasSaved == old(s2.hasSaved)
      ensures s2.Saved1() == old(s2.Saved1()) && s2.Saved2() == old(s2.Saved2())
    {
      hide Compare, HasFields, Merge, Standing, NextCursor, AllHave, SortedOn;
      more1 := s1.Next();
    }

    /** Moves the right scan; the left one keeps its place. */
    method NextRight() returns (more2: bool)
      requires Wired() && s2.CanGoOn()
      modifies s2, s2.s1, s2.s2
      ensures Wired() && Input() == old(Input())
      ensures s2.Here() == NextCursor([fldname2], s2.Run1(), s2.Run2(), old(s2.Here()))
      ensures more2 <==> HasNext(s2.Run1(), s2.Run2(), old(s2.Here()))
      ensures more2 ==> s2.CanGoOn() && s2.currentidx > 0
      ensures old(s2.currentidx) > 0 ==> s2.Here().i + s2.Here().j == old(s2.Here().i + s2.Here().j) + 1
      ensures s2.hasSaved == old(s2.hasSaved) && s2.Saved1() == old(s2.Saved1()) && s2.Saved2() == old(s2.Saved2())
      ensures s1.taken == old(s1.taken) && s1.ended == old(s1.ended) && (old(s1.OnRow()) ==> s1.OnRow())
    {
      hide Compare, HasFields, Merge, Standing, NextCursor, AllHave, SortedOn;
      NextMoves([fldname2], s2.Run1(), s2.Run2(), s2.Here());
      more2 := s2.Next();
    }

    /** The join value of the current left row. */
    method LeftVal() returns (v: Value)
      requires Wired() && s1.OnRow()
      ensures 0 < s1.taken <= |Input().left| && v == Input().Key(s1.taken - 1)
    {
      hide Compare, HasFields, Merge, Standing;
      s1.CurrentRow();
      assert s1.Output()[s1.taken - 1] in s1.Output();
      v := s1.GetVal(fldname1);
    }

    /** The join value of the current right row. */
    method RightVal() returns (v: Value)
      requires Wired() && Input().OnRow(s2.Here())
      ensures v == Input().KeyAt(s2.Here())
    {
      hide Compare, HasFields, Merge, Standing;
      v := s2.GetVal(fldname2);
    }

    /** The two current rows are the next pair. */
    ghost predicate Ready()
      reads Footprint()
    {
      && Wired() && joinval.Some? && s1.OnRow() && 0 < s1.taken <= |Input().left| && s2.CanGoOn()
      && joinval.value == Input().Key(s1.taken - 1) && s2.hasSaved && (s2.s2 == null ==> Remembered(joinval.value))
      && Input().OnRow(s2.Here())
      && Group(Input(), out + [ThisPair()], s1.taken - 1, s2.Here(), s2.Saved1(), s2.Saved2())
    }

    ghost function ThisPair(): Pair
      requires Wired() && 0 < s1.taken <= |Input().left| && Input().OnRow(s2.Here())
      reads this, s1.Footprint(), s2.Footprint()
    {
      (Input().left[s1.taken - 1], Input().RowAt(s2.Here()))
    }

    ghost method Deliver()
      requires Ready() && !ended
      modifies this`out
      ensures Valid() && !ended && Input() == old(Input()) && 0 < s1.taken <= |Input().left|
      ensures Input().OnRow(s2.Here()) && out == old(out) + [ThisPair()]
    {
      hide Compare, HasFields, Merge, Standing, AllHave, SortedOn, Group, SavedGroup, Common;
      LeftKey(Input(), s1.taken - 1);
      out := out + [ThisPair()];
    }

    /** Moves the right scan to its saved places; the left one keeps its place. */
    method RestoreRight()
      requires Wired() && s2.hasSaved
      modifies s2, s2.s1, s2.s2
      ensures Wired() && Input() == old(Input()) && s2.Here() == old(s2.Restored()) && !s2.ended
      ensures s2.hasSaved && s2.Saved1() == old(s2.Saved1()) && s2.Saved2() == old(s2.Saved2())
      ensures s1.taken == old(s1.taken) && s1.ended == old(s1.ended) && (old(s1.OnRow()) ==> s1.OnRow())
    {
      hide Compare, HasFields, Merge, Standing, AllHave, SortedOn, Delivers, Rest, Sorted, Remembered, CanPass;
      hide SortScan.SavedWell, SortScan.RestoresRows, SortScan.FlagsAsSaved, SortScan.StillExhausted;
      s2.RestorePosition();
    }

    // -------------------------------------------------------------------------------------------
    // The right scan first
    // -------------------------------------------------------------------------------------------

    /** The right scan has moved, the left one has not. */
    ghost predicate RightMoved(more2: bool)
      reads Footprint()
    {
      && Wired() && Kept() && !ended && !s1.ended && RightStands(more2)
      && (if s1.taken == 0 then out == [] && Restarted()
          else OnGroup(s1.taken - 1) && s1.OnRow())
    }

    /** The first right row is current, if there is one. */
    ghost predicate Restarted()
      requires Wired()
      reads this, s1.Footprint(), s2.Footprint()
    {
      && Searching(Input(), [], 0, s2.Here())
      && s2.Here() == NextCursor([fldname2], s2.Run1(), s2.Run2(), FirstCursor(s2.Run1(), s2.Run2()))
      && (joinval.Some? ==> s2.s2 == null)
    }

    /** The right scan has gone on from a pair of left row `li`. */
    ghost predicate OnGroup(li: int)
      requires Wired()
      reads this, s1.Footprint(), s2.Footprint()
    {
      && joinval.Some? && 0 <= li < |Input().left| && joinval.value == Input().Key(li)
      && Moved(Input(), out, li, s2.Here(), s2.Saved1(), s2.Saved2())
    }

    /** The right row has the join value. */
    ghost predicate RightMatches()
      requires Wired()
      reads this, s1.Footprint(), s2.Footprint()
    {
      joinval.Some? && More(s2.Here()) && Input().OnRow(s2.Here()) && Input().KeyAt(s2.Here()) == joinval.value
    }

    method MoveRight() returns (more2: bool)
      requires Valid() && !ended
      modifies s2, s2.s1, s2.s2
      ensures RightMoved(more2) && Input() == old(Input())
      ensures old(s1.taken) > 0 ==> s2.Here().i + s2.Here().j > old(s2.Here().i + s2.Here().j)
    {
      hide Compare, HasFields, Merge, Standing, AllHave, SortedOn, Moved, Searching, Group, SavedGroup, NextCursor,
           HasNext;
      if s1.taken == 0 {
        StartStep(Input());
      } else {
        MoveStep(Input(), out, s1.taken - 1, s2.Here(), s2.Saved1(), s2.Saved2());
      }
      more2 := NextRight();
    }

    method SameRight(more2: bool) returns (same: bool)
      requires RightMoved(more2)
      ensures RightMoved(more2) && Input() == old(Input()) && (same <==> RightMatches())
    {
      hide Compare, HasFields, Merge, Standing, AllHave, SortedOn, Moved, Searching, SavedGroup;
      same := false;
      if joinval.Some? && more2 {
        var v := RightVal();
        same := v == joinval.value;
      }
    }

    /** One more pair for the current left row. */
    lemma TakeRight()
      requires RightMoved(true) && RightMatches() && s1.taken > 0
      ensures Ready()
    {
      hide Compare, HasFields, Merge, Standing, AllHave, SortedOn, Moved, Group, SavedGroup, Common;
      TakeStep(Input(), out, s1.taken - 1, s2.Here(), s2.Saved1(), s2.Saved2());
    }

    // -------------------------------------------------------------------------------------------
    // Then the left scan
    // -------------------------------------------------------------------------------------------

    /** Both scans have moved, the right one to a row of another value than the join value, or to its end. */
    ghost predicate LeftMoved(more1: bool, more2: bool)
      reads Footprint()
    {
      && Wired() && Kept() && !ended && LeftStands(more1) && RightStands(more2) && !RightMatches()
      && (if Passed(more1) == 0 then out == [] && Restarted() else OnGroup(Passed(more1) - 1))
    }

    /** The left row has the join value. */
    ghost predicate LeftMatches(more1: bool)
      requires Wired()
      reads this, s1.Footprint(), s2.Footprint()
    {
      joinval.Some? && more1 && 0 < s1.taken <= |Input().left| && Input().Key(s1.taken - 1) == joinval.value
    }

    method MoveLeft(ghost more2: bool) returns (more1: bool)
      requires RightMoved(more2) && !RightMatches()
      modifies s1, s1.s1, s1.s2
      ensures LeftMoved(more1, more2) && Input() == old(Input()) && Passed(more1) == old(s1.taken)
    {
      hide Compare, HasFields, Merge, Standing, AllHave, SortedOn, Moved, Searching, SavedGroup, Common, NextCursor;
      more1 := NextLeft();
    }

    method SameLeft(more1: bool, ghost more2: bool) returns (same: bool)
      requires LeftMoved(more1, more2)
      ensures LeftMoved(more1, more2) && Input() == old(Input()) && Passed(more1) == old(Passed(more1))
      ensures same <==> LeftMatches(more1)
    {
      hide Compare, HasFields, Merge, Standing, AllHave, SortedOn, Moved, Searching, SavedGroup, Common, NextCursor;
      same := false;
      if joinval.Some? && more1 {
        var v := LeftVal();
        same := v == joinval.value;
      }
    }

    /** Everything in front of the two current rows has been dealt with. */
    ghost predicate Looking(more1: bool, more2: bool)
      reads Footprint()
    {
      && Wired() && Kept() && !ended && LeftStands(more1) && RightStands(more2)
      && Searching(Input(), out, Passed(more1), s2.Here())
    }

    /** The next left row, if there is one, does not join the group. */
    lemma LeaveGroup(more1: bool, more2: bool)
      requires LeftMoved(more1, more2) && !LeftMatches(more1)
      ensures Looking(more1, more2)
    {
      hide Compare, HasFields, Merge, Standing, AllHave, SortedOn, Moved, Searching, SavedGroup, Common, NextCursor;
      if Passed(more1) > 0 {
        LeaveStep(Input(), out, Passed(more1) - 1, s2.Here(), s2.Saved1(), s2.Saved2());
      }
    }

    /** The next left row joins the same group: the right scan goes back to its beginning. */
    method BackToGroup(ghost more2: bool)
      requires LeftMoved(true, more2) && LeftMatches(true)
      modifies s2, s2.s1, s2.s2
      ensures Ready() && !ended && Input() == old(Input()) && s1.taken == old(s1.taken)
    {
      hide Compare, HasFields, Merge, Standing, AllHave, SortedOn, Moved, Searching, SavedGroup, Common, NextCursor;
      hide Group;
      BackStep(more2);
      RestoreRight();
    }

    lemma BackStep(more2: bool)
      requires LeftMoved(true, more2) && LeftMatches(true)
      ensures var x, r := Input(), s2.Here().(i := s2.Saved1(), j := s2.Saved2());
              && CanPass(x.a, x.b, r) && x.OnRow(r) && s2.Restored() == r
              && Group(x, out + [(x.left[s1.taken - 1], x.RowAt(r))], s1.taken - 1, r, s2.Saved1(), s2.Saved2())
    {
      hide Compare, HasFields, Merge, Standing, AllHave, SortedOn, Searching, SavedGroup, Common, NextCursor;
      hide Group, CleanMoved, Rereadable, Spoilt, InOrder;
      if s1.taken == 1 {
        AgainStep(Input(), joinval.value, s2.Saved1());
        assert forall p: Pair :: out + [p] == [p];
      } else {
        RestoreStep(Input(), out, s1.taken - 2, s2.Here(), s2.Saved1(), s2.Saved2());
      }
    }

    // -------------------------------------------------------------------------------------------
    // The loop
    // -------------------------------------------------------------------------------------------

    method CurrentValues() returns (v1: Value, v2: Value)
      requires Looking(true, true)
      ensures Looking(true, true) && Input() == old(Input()) && Unmoved(old(s1.taken), old(s2.Here()))
      ensures Input().OnRow(s2.Here())
      ensures v1 == Input().Key(s1.taken - 1) && v2 == Input().KeyAt(s2.Here())
    {
      hide Compare, HasFields, Merge, Standing, AllHave, SortedOn, Searching, SavedGroup, Common;
      v1 := LeftVal();
      v2 := RightVal();
    }

    ghost predicate Unmoved(taken: nat, c: Cursor)
      reads s1.Footprint(), s2.Footprint()
    {
      s1.taken == taken && s2.Here() == c
    }

    method SkipLeftRow() returns (more1: bool)
      requires Looking(true, true) && Input().OnRow(s2.Here())
      requires Less(Input().Key(s1.taken - 1), Input().KeyAt(s2.Here()))
      modifies s1, s1.s1, s1.s2
      ensures Looking(more1, true) && Input() == old(Input())
      ensures Passed(more1) == old(s1.taken) && s2.Here() == old(s2.Here())
    {
      hide Compare, HasFields, Merge, Standing, AllHave, SortedOn, Searching, SavedGroup, Common;
      SkipLeftStep(Input(), out, s1.taken - 1, s2.Here());
      more1 := NextLeft();
    }

    method SkipRightRow() returns (more2: bool)
      requires Looking(true, true) && Input().OnRow(s2.Here())
      requires Less(Input().KeyAt(s2.Here()), Input().Key(s1.taken - 1))
      modifies s2, s2.s1, s2.s2
      ensures Looking(true, more2) && Input() == old(Input())
      ensures s1.taken == old(s1.taken)
      ensures s2.Here().i + s2.Here().j > old(s2.Here().i + s2.Here().j)
    {
      hide Compare, HasFields, Merge, Standing, AllHave, SortedOn, Searching, SavedGroup, Common, NextCursor, HasNext;
      SkipRightStep(Input(), out, s1.taken - 1, s2.Here());
      more2 := NextRight();
    }

    method SaveRight()
      requires Wired() && s2.CanGoOn() && s2.currentidx > 0
      modifies s2
      ensures Wired() && s2.CanGoOn() && Input() == old(Input()) && s2.Here() == old(s2.Here())
      ensures s2.hasSaved && s2.Saved1() == s2.Here().i && s2.Saved2() == s2.Here().j
      ensures s1.taken == old(s1.taken) && s1.ended == old(s1.ended) && (old(s1.OnRow()) ==> s1.OnRow())
    {
      hide Compare, HasFields, Merge, Standing, AllHave, SortedOn;
      s2.SavePosition();
    }

    /** The two current values are equal: the current right row is the first of its group. */
    method StartGroup(v: Value)
      requires Looking(true, true) && Input().OnRow(s2.Here())
      requires Input().Key(s1.taken - 1) == v == Input().KeyAt(s2.Here())
      modifies s2, this`joinval
      ensures Ready() && !ended && Input() == old(Input()) && Unmoved(old(s1.taken), old(s2.Here()))
    {
      hide Compare, HasFields, Merge, Standing, AllHave, SortedOn, Searching, Group, SavedGroup, Common;
      ghost var x, c := Input(), s2.Here();
      EnterStep(x, out, s1.taken - 1, c);
      if s2.s2 == null {
        GroupSaved(x, out + [(x.left[s1.taken - 1], x.RowAt(c))], s1.taken - 1, c, c.i, c.j);
      }
      SaveRight();
      joinval := Some(v);
    }

    /** The rows that are left on both sides. */
    ghost function Left(more1: bool): int
      requires Wired()
      reads s1.Footprint(), s2.Footprint()
    {
      |Input().left| - Passed(more1) + |Input().a| - s2.Here().i + |Input().b| - s2.Here().j
    }

    /** The loop of `next`: goes on to the next pair of equal values, if there is one. */
    method FindGroup(more1: bool, more2: bool) returns (more: bool)
      requires Looking(more1, more2)
      modifies this`joinval, this`ended, s1, s1.s1, s1.s2, s2, s2.s1, s2.s2
      ensures Wired() && Input() == old(Input()) && Passed(more) >= old(Passed(more1))
      ensures more ==> Ready() && !ended
      ensures !more ==> Valid() && ended
    {
      hide Compare, HasFields, Merge, Standing, AllHave, SortedOn, Searching, SavedGroup, Common, Group, Finished;
      ghost var x := Input();
      var hasmore1, hasmore2 := more1, more2;
      while hasmore1 && hasmore2
        invariant Looking(hasmore1, hasmore2) && Input() == x && Passed(hasmore1) >= old(Passed(more1))
        decreases Left(hasmore1)
      {
        var v1, v2 := CurrentValues();
        TotalOrder(v1, v2);
        if Less(v1, v2) {
          hasmore1 := SkipLeftRow();
        } else if Greater(v1, v2) {
          hasmore2 := SkipRightRow();
        } else {
          StartGroup(v2);
          return true;
        }
      }
      TheEnd(hasmore1, hasmore2);
      ended := true;
      more := false;
    }

    lemma TheEnd(more1: bool, more2: bool)
      requires Looking(more1, more2) && !(more1 && more2)
      ensures Finished(Input(), out)
    {
      hide Compare, HasFields, Merge, Standing, AllHave, SortedOn, Searching, SavedGroup, Common, Finished;
      EndStep(Input(), out, Passed(more1), s2.Here());
    }

    // -------------------------------------------------------------------------------------------
    // One call, and whole passes
    // -------------------------------------------------------------------------------------------

    /** The rest of `next`, after the right row has turned out not to be in the group. */
    method GoOnLeft(more2: bool) returns (more: bool)
      requires RightMoved(more2) && !RightMatches()
      modifies this`joinval, this`ended, s1, s1.s1, s1.s2, s2, s2.s1, s2.s2
      ensures Wired() && Input() == old(Input())
      ensures more ==> Ready() && !ended && s1.taken > old(s1.taken)
      ensures !more ==> Valid() && ended
    {
      hide Compare, HasFields, Merge, Standing, AllHave, SortedOn, Searching, SavedGroup, Common, Group, Finished;
      hide MergeJoinScan.OnGroup, MergeJoinScan.Restarted;
      var hasmore1 := MoveLeft(more2);
      var same := SameLeft(hasmore1, more2);
      if same {
        BackToGroup(more2);
        return true;
      }
      LeaveGroup(hasmore1, more2);
      more := FindGroup(hasmore1, more2);
    }

    /** A pass begins with the join value of an earlier one, and the first right row has it. */
    ghost predicate Misled()
      requires Wired()
      reads this, s1.Footprint(), s2.Footprint()
    {
      joinval.Some? && s1.taken == 0 && Input().a != [] && Input().KeyA(0) == joinval.value
    }

    lemma MisledFirst(more2: bool)
      requires RightMoved(more2) && s1.taken == 0
      ensures s1.currentidx == 0 && (RightMatches() <==> Misled())
    {
      hide Compare, HasFields, Merge, TakesFirst, At, AllHave, SortedOn, Searching, SavedGroup, NextCursor;
      if joinval.Some? {
        FirstRow(Input());
      }
    }

    /** A later left row, or the same one with a later right row. */
    ghost predicate Ahead(taken: nat, c: Cursor)
      reads s1.Footprint(), s2.Footprint()
    {
      s1.taken > taken || (s1.taken == taken > 0 && s2.Here().i + s2.Here().j > c.i + c.j)
    }

    /**
     Delivers the next pair, or comes to the end and has delivered what `Finished` says. But the first call of a pass
     that begins with an old join value answers at the first right row, without a left row, if that one has the value.
     */
    method Next() returns (more: bool)
      requires Valid() && !ended
      modifies this`joinval, this`ended, this`out, s1, s1.s1, s1.s2, s2, s2.s1, s2.s2
      ensures Wired() && Input() == old(Input()) && (more <==> !ended)
      ensures old(Misled()) ==> more && s1.currentidx == 0 && out == old(out)
      ensures !old(Misled()) ==> Valid()
      ensures !old(Misled()) && more ==>
                s1.currentidx > 0 && 0 < s1.taken <= |Input().left| && Input().OnRow(s2.Here())
      ensures !old(Misled()) && more ==> out == old(out) + [ThisPair()]
      ensures !old(Misled()) && more ==> Ahead(old(s1.taken), old(s2.Here()))
      ensures !more ==> out == old(out)
    {
      hide Compare, HasFields, Merge, Standing, AllHave, SortedOn, Searching, SavedGroup, Common, Group, Finished;
      hide MergeJoinScan.OnGroup, MergeJoinScan.Restarted;
      var hasmore2 := MoveRight();
      var same := SameRight(hasmore2);
      if s1.taken == 0 {
        MisledFirst(hasmore2);
      }
      if same {
        if s1.taken > 0 {
          TakeRight();
          Deliver();
        }
        return true;
      }
      more := GoOnLeft(hasmore2);
      if more {
        Deliver();
      }
    }

    /**
     Reads the join to its end, from any moment of a pass. What has been delivered is the join by definition exactly if
     every value of two left rows can be read again on the right side; with one run it always is, in the same order.
     */
    method ReadAll()
      requires Valid() && !ended && !Misled()
      modifies this`joinval, this`ended, this`out, s1, s1.s1, s1.s2, s2, s2.s1, s2.s2
      ensures Valid() && ended && Input() == old(Input())
      ensures multiset(out) == multiset(NestedLoops(Input().left, Input().Right(), fldname1, fldname2)) <==>
              Rereadable(Input())
      ensures InKeyOrder(out, fldname1)
      ensures s2.s2 == null ==> out == NestedLoops(Input().left, Input().a, fldname1, fldname2)
    {
      hide Compare, HasFields, Merge, Standing, AllHave, Searching, SavedGroup, Common, Group, NestedLoops, InKeyOrder;
      ghost var x := Input();
      var more := Next();
      while more
        invariant Valid() && Input() == x && more == !ended && (more ==> 0 < s1.taken <= |x.left|)
        decreases more, |x.left| - s1.taken, |x.a| + |x.b| - s2.Here().i - s2.Here().j
      {
        more := Next();
      }
      assert x.b == [] ==> x.Right() == x.a;
    }

    method RewindLeft()
      requires Wired()
      modifies s1, s1.s1, s1.s2
      ensures Wired() && Input() == old(Input()) && s1.taken == 0 && !s1.ended
      ensures s2.hasSaved == old(s2.hasSaved) && s2.Saved1() == old(s2.Saved1())
    {
      hide Compare, HasFields, Merge, Standing, AllHave, SortedOn;
      s1.BeforeFirst();
    }

    method RewindRight()
      requires Wired()
      modifies s2, s2.s1, s2.s2
      ensures Wired() && Input() == old(Input()) && s1.taken == old(s1.taken) && s1.ended == old(s1.ended)
      ensures s2.CanGoOn() && s2.Here() == FirstCursor(s2.Run1(), s2.Run2())
      ensures s2.hasSaved == old(s2.hasSaved) && s2.Saved1() == old(s2.Saved1())
    {
      hide Compare, HasFields, Merge, Standing, AllHave, SortedOn;
      s2.BeforeFirst();
    }

    /** Goes back to the beginning, with the join value and the saved places as they are. */
    method BeforeFirst()
      requires Valid() && (joinval.Some? ==> s2.s2 == null)
      modifies this`ended, this`out, s1, s1.s1, s1.s2, s2, s2.s1, s2.s2
      ensures Valid() && Input() == old(Input()) && !ended && out == [] && s1.taken == 0 && joinval == old(joinval)
    {
      hide Compare, HasFields, Merge, Standing, AllHave, SortedOn, Searching, SavedGroup, Common, Group, Finished;
      RewindLeft();
      RewindRight();
      out, ended := [], false;
    }

    /** After a complete pass over one run the join value is the largest common one. */
    lemma LastValue()
      requires Valid() && ended && s2.s2 == null
      ensures joinval.Some? && Input().a != [] && Input().KeyA(0) == joinval.value <==> SmallestIsLargest(Input())
    {
      hide Compare, HasFields, Merge, Standing, AllHave, SortedOn, NestedLoops, SavedGroup;
      assert Input().Right() == Input().a;
      LastIsLargest(Input(), out);
      LargestFirst(Input(), joinval);
    }

    /**
     Another pass, after a complete one over one run: it delivers the join again exactly if the smallest right value is
     not the largest common one. Otherwise the first call answers that there is a pair, and there is no left row.
     */
    method ReadAgain() returns (first: bool)
      requires Valid() && ended && s2.s2 == null
      modifies this`joinval, this`ended, this`out, s1, s1.s1, s1.s2, s2, s2.s1, s2.s2
      ensures Wired() && Input() == old(Input())
      ensures ended && out == NestedLoops(Input().left, Input().a, fldname1, fldname2) <==> !SmallestIsLargest(Input())
      ensures SmallestIsLargest(Input()) ==> first && s1.currentidx == 0 && out == []
    {
      hide Compare, HasFields, Merge, Standing, AllHave, Searching, SavedGroup, Common, Group, NestedLoops, InKeyOrder;
      hide SmallestIsLargest, Rereadable;
      LastValue();
      BeforeFirst();
      first := Next();
      if first && s1.currentidx > 0 {
        ReadAll();
      }
      assert Input().Right() == Input().a;
    }
  }

  /** A scan of one row. */
  method ScanOfOne(f: Str, v: Value) returns (scan: SortScan)
    ensures scan.Valid() && scan.sortFields == [f] && scan.taken == 0 && !scan.ended && fresh(scan.Footprint())
    ensures scan.s2 == null && scan.Here() == FirstCursor(scan.Run1(), scan.Run2())
    ensures scan.Run1() == scan.Output() == [map[f := v]]
  {
    hide Compare, Merge, Standing;
    var t := new TempTable();
    t.rows := [map[f := v]];
    forall r | r in t.rows
      ensures HasFields(r, [f])
    {
      assert r == map[f := v];
    }
    scan := new SortScan([t], [f]);
    MergeEnd([f], t.rows, []);
  }

  lemma OneCommon(f1: Str, f2: Str, v: Value)
    ensures var x := JoinInput([map[f1 := v]], f1, [map[f2 := v]], [], f2); x.Ok() && SmallestIsLargest(x)
  {
    var x := JoinInput([map[f1 := v]], f1, [map[f2 := v]], [], f2);
    assert HasFields(x.a[0], [f2]);
    assert x.left[0][f1] == v && x.a[0][f2] == v;
    TotalOrder(v, v);
  }

  /** One row with the same value on either side: the first call of the second pass has no left row. */
  method SecondPassGoesWrong(f1: Str, f2: Str, v: Value) returns (scan: MergeJoinScan, first: bool)
    ensures scan.Wired() && scan.Input() == JoinInput([map[f1 := v]], f1, [map[f2 := v]], [], f2)
    ensures first && scan.s1.currentidx == 0 && scan.out == []
  {
    hide Compare, HasFields, Merge, Standing, SmallestIsLargest, NestedLoops, Rereadable, SortScan.SavedWell;
    OneCommon(f1, f2, v);
    var s1 := ScanOfOne(f1, v);
    var s2 := ScanOfOne(f2, v);
    scan := new MergeJoinScan(s1, s2, f1, f2);
    scan.ReadAll();
    first := scan.ReadAgain();
  }
}

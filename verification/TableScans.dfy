/**
 `TableScan`: a table file as a map from record identifiers to records, and the cursor on it.
 */
module TableScans {
  import opened Types
  import opened Ordering
  import opened Layouts
  import opened Records

  // ---------------------------------------------------------------------------------------------
  // A table as slots
  // ---------------------------------------------------------------------------------------------

  datatype RID = RID(blk: nat, slot: nat)

  type SlotTable = seq<seq<Slot>>

  predicate IsSlotOf(t: SlotTable, r: RID) {
    r.blk < |t| && r.slot < |t[r.blk]|
  }

  function SlotOf(t: SlotTable, r: RID): Slot
    requires IsSlotOf(t, r)
  {
    t[r.blk][r.slot]
  }

  /** The record with an identifier, if there is one. */
  function Holds(t: SlotTable, r: RID): Option<Row> {
    if IsSlotOf(t, r) && SlotOf(t, r).flag == USED then Some(SlotOf(t, r).row) else None
  }

  function Put(t: SlotTable, r: RID, s: Slot): SlotTable
    requires IsSlotOf(t, r)
  {
    t[r.blk := t[r.blk][r.slot := s]]
  }

  /** The used slots of one block from slot `s` on. */
  function UsedIn(slots: seq<Slot>, b: nat, s: nat): seq<RID>
    decreases |slots| - s
  {
    if s >= |slots| then []
    else (if slots[s].flag == USED then [RID(b, s)] else []) + UsedIn(slots, b, s + 1)
  }

  /** The used slots from slot `s` of block `b` on, in the order of the file. */
  function UsedFrom(t: SlotTable, b: nat, s: nat): seq<RID>
    decreases |t| - b
  {
    if b >= |t| then [] else UsedIn(t[b], b, s) + UsedFrom(t, b + 1, 0)
  }

  /** `r` comes at or behind slot `s` of block `b`. */
  predicate From(r: RID, b: nat, s: nat) {
    r.blk > b || (r.blk == b && r.slot >= s)
  }

  lemma {:induction false} SkipIn(slots: seq<Slot>, b: nat, s: nat, k: nat)
    requires s <= k && forall m | s <= m < k && m < |slots| :: slots[m].flag != USED
    ensures UsedIn(slots, b, s) == UsedIn(slots, b, k)
    decreases k - s
  {
    if s < k {
      SkipIn(slots, b, s + 1, k);
    }
  }

  lemma {:induction false} InMembers(slots: seq<Slot>, b: nat, s: nat)
    ensures forall r :: r in UsedIn(slots, b, s) <==> r.blk == b && s <= r.slot < |slots| && slots[r.slot].flag == USED
    ensures forall i, j | 0 <= i < j < |UsedIn(slots, b, s)| :: UsedIn(slots, b, s)[i].slot < UsedIn(slots, b,
            s)[j].slot
    decreases |slots| - s
  {
    if s < |slots| {
      InMembers(slots, b, s + 1);
    }
  }

  predicate Ahead(r: RID, q: RID) {
    r.blk < q.blk || (r.blk == q.blk && r.slot < q.slot)
  }

  /** The list of used slots: every used slot, once, in the order of blocks and slots. */
  lemma {:induction false} UsedMembers(t: SlotTable, b: nat, s: nat)
    ensures forall r :: r in UsedFrom(t, b, s) <==> From(r, b, s) && Holds(t, r).Some?
    ensures forall i, j | 0 <= i < j < |UsedFrom(t, b, s)| :: Ahead(UsedFrom(t, b, s)[i], UsedFrom(t, b, s)[j])
    decreases |t| - b
  {
    if b < |t| {
      UsedMembers(t, b + 1, 0);
      InMembers(t[b], b, s);
      var head, tail := UsedIn(t[b], b, s), UsedFrom(t, b + 1, 0);
      forall i, j | 0 <= i < j < |head + tail|
        ensures Ahead((head + tail)[i], (head + tail)[j])
      {
        assert i < |head| ==> (head + tail)[i] in head;
        assert j >= |head| ==> (head + tail)[j] in tail;
      }
    }
  }

  lemma BlockSame(t: SlotTable, t': SlotTable, b: nat, s: nat)
    requires |t| == |t'| && b < |t| && forall k | 0 <= k < |t| :: |t[k]| == |t'[k]|
    requires forall r | From(r, b, s) && IsSlotOf(t, r) :: SlotOf(t, r).flag == SlotOf(t', r).flag
    ensures UsedIn(t[b], b, s) == UsedIn(t'[b], b, s)
  {
    hide UsedIn;
    forall m | s <= m < |t[b]|
      ensures t[b][m].flag == t'[b][m].flag
    {
      assert SlotOf(t, RID(b, m)).flag == SlotOf(t', RID(b, m)).flag;
    }
    InSame(t[b], t'[b], b, s);
  }

  /** The list depends on the flags from its beginning on only. */
  lemma {:induction false} UsedSame(t: SlotTable, t': SlotTable, b: nat, s: nat)
    requires |t| == |t'| && forall k | 0 <= k < |t| :: |t[k]| == |t'[k]|
    requires forall r | From(r, b, s) && IsSlotOf(t, r) :: SlotOf(t, r).flag == SlotOf(t', r).flag
    ensures UsedFrom(t, b, s) == UsedFrom(t', b, s)
    decreases |t| - b
  {
    if b < |t| {
      BlockSame(t, t', b, s);
      hide UsedIn;
      forall r | From(r, b + 1, 0) && IsSlotOf(t, r)
        ensures SlotOf(t, r).flag == SlotOf(t', r).flag
      {
        assert From(r, b, s);
      }
      UsedSame(t, t', b + 1, 0);
    }
  }

  lemma {:induction false} InSame(x: seq<Slot>, y: seq<Slot>, b: nat, s: nat)
    requires |x| == |y| && forall m | s <= m < |x| :: x[m].flag == y[m].flag
    ensures UsedIn(x, b, s) == UsedIn(y, b, s)
    decreases |x| - s
  {
    if s < |x| {
      InSame(x, y, b, s + 1);
    }
  }

  lemma PutHolds(t: SlotTable, r: RID, s: Slot, q: RID)
    requires IsSlotOf(t, r)
    ensures Holds(Put(t, r, s), q) == if q == r then (if s.flag == USED then Some(s.row) else None) else Holds(t, q)
  {}

  /** A change in front of a position, or one that keeps the flag, does not change the list behind it. */
  lemma PutBefore(t: SlotTable, r: RID, x: Slot, b: nat, s: nat)
    requires IsSlotOf(t, r) && (From(r, b, s) ==> x.flag == SlotOf(t, r).flag)
    ensures UsedFrom(Put(t, r, x), b, s) == UsedFrom(t, b, s)
  {
    UsedSame(t, Put(t, r, x), b, s);
  }

  // ---------------------------------------------------------------------------------------------
  // The file behind a table
  // ---------------------------------------------------------------------------------------------

  /** All blocks are formatted, and a slot fits into a block. */
  ghost predicate FileOk(l: Layout, blocksize: nat, blocks: seq<seq<byte>>) {
    && Good(l) && l.slotsize <= blocksize
    && forall k | 0 <= k < |blocks| :: |blocks[k]| == blocksize && Formatted(l, blocks[k])
  }

  ghost function TableOf(l: Layout, blocksize: nat, blocks: seq<seq<byte>>): (t: SlotTable)
    requires FileOk(l, blocksize, blocks)
    ensures |t| == |blocks| && forall k | 0 <= k < |t| :: t[k] == Slots(l, blocks[k])
  {
    seq(|blocks|, k requires 0 <= k < |blocks| => Slots(l, blocks[k]))
  }

  function BlankBlock(l: Layout, blocksize: nat): seq<Slot>
    requires l.schema.Complete()
  {
    seq(SlotCount(l, blocksize), _ => Slot(EMPTY, Blank(l.schema)))
  }

  lemma SlotCountPositive(l: Layout, blocksize: nat)
    requires Good(l) && l.slotsize <= blocksize
    ensures SlotCount(l, blocksize) > 0
  {}

  // ---------------------------------------------------------------------------------------------
  // TableScan
  // ---------------------------------------------------------------------------------------------

  class TableScan {
    const file: TableFile
    const layout: Layout
    var rp: RecordPage
    var currentslot: Option<nat>

    ghost predicate Valid()
      reads this, file
    {
      && FileOk(layout, file.blocksize, file.blocks)
      && rp.file == file && rp.layout == layout && rp.blk < |file.blocks|
      && (currentslot.Some? ==> currentslot.value < SlotCount(layout, file.blocksize))
    }

    ghost function Contents(): SlotTable
      requires FileOk(layout, file.blocksize, file.blocks)
      reads file
    {
      TableOf(layout, file.blocksize, file.blocks)
    }

    ghost predicate OnSlot()
      reads this, file
    {
      Valid() && currentslot.Some?
    }

    ghost function Here(): (r: RID)
      requires OnSlot()
      reads this, file
      ensures IsSlotOf(Contents(), r)
    {
      RID(rp.blk, currentslot.value)
    }

    /** The first slot that has not been passed. */
    function NextSlot(): nat
      reads this
    {
      if currentslot.Some? then currentslot.value + 1 else 0
    }

    /** The records behind the cursor, in order. */
    ghost function Rest(): seq<RID>
      requires Valid()
      reads this, file
    {
      UsedFrom(Contents(), rp.blk, NextSlot())
    }

    constructor (file: TableFile, layout: Layout)
      requires FileOk(layout, file.blocksize, file.blocks)
      modifies file
      ensures Valid() && this.file == file && this.layout == layout && fresh(this)
      ensures currentslot.None? && rp.blk == 0
      ensures Contents() == if old(file.blocks) == [] then [BlankBlock(layout, file.blocksize)]
                            else TableOf(layout, file.blocksize, old(file.blocks))
    {
      this.file, this.layout, currentslot := file, layout, None;
      rp := new RecordPage(file, 0, layout);
      new;
      if file.blocks == [] {
        MoveToNewBlock();
      } else {
        MoveToBlock(0);
      }
    }

    method MoveToBlock(blknum: nat)
      requires FileOk(layout, file.blocksize, file.blocks) && blknum < |file.blocks|
      modifies this
      ensures Valid() && rp.blk == blknum && currentslot.None?
    {
      rp := new RecordPage(file, blknum, layout);
      currentslot := None;
    }

    method MoveToNewBlock()
      requires FileOk(layout, file.blocksize, file.blocks)
      modifies this, file
      ensures Valid() && rp.blk == |old(file.blocks)| && currentslot.None?
      ensures Contents() == old(Contents()) + [BlankBlock(layout, file.blocksize)]
    {
      var blk := file.Append();
      rp := new RecordPage(file, blk, layout);
      rp.Format();
      currentslot := None;
    }

    predicate AtLastBlock()
      reads this, file
    {
      rp.blk == |file.blocks| - 1
    }

    method BeforeFirst()
      requires Valid()
      modifies this
      ensures Valid() && Rest() == UsedFrom(Contents(), 0, 0) && currentslot.None?
    {
      MoveToBlock(0);
    }

    /** Looks for the next record in the current block. */
    method SearchHere()
      requires Valid()
      modifies `currentslot
      ensures Valid() && Contents() == old(Contents())
      ensures currentslot.Some? ==> old(Rest()) == [Here()] + Rest()
      ensures currentslot.None? ==> old(Rest()) == UsedFrom(Contents(), rp.blk + 1, 0)
    {
      hide UsedFrom, UsedIn, Slots;
      ghost var from := NextSlot();
      var found := rp.NextAfter(currentslot);
      assert rp.Here() == Contents()[rp.blk];
      currentslot := found;
      Found(from);
    }

    /**
     Goes to the next record. At the end there is none behind the cursor, but the cursor stays in front of the
     last block: another call would read that block again.
     */
    method Next() returns (more: bool)
      requires Valid()
      modifies this
      ensures Valid() && Contents() == old(Contents())
      ensures more <==> old(Rest()) != []
      ensures more ==> OnSlot() && old(Rest()) == [Here()] + Rest()
      ensures !more ==> currentslot.None? && rp.blk == |Contents()| - 1
                        && Rest() == UsedFrom(Contents(), |Contents()| - 1, 0)
    {
      hide UsedIn, FileOk, TableOf;
      ghost var rest, t := Rest(), Contents();
      SearchHere();
      while currentslot.None?
        invariant Valid() && Contents() == t
        invariant currentslot.Some? ==> rest == [Here()] + Rest()
        invariant currentslot.None? ==> rest == UsedFrom(t, rp.blk + 1, 0)
        decreases |file.blocks| - rp.blk, if currentslot.None? then 1 else 0
      {
        if AtLastBlock() {
          return false;
        }
        MoveToBlock(rp.blk + 1);
        SearchHere();
      }
      more := true;
    }

    /** What a search in one block says about the records behind a position. */
    lemma Found(from: nat)
      requires Valid()
      requires var slots := Contents()[rp.blk];
               match currentslot
               case Some(k) => from <= k < |slots| && slots[k].flag == USED
                               && forall m | from <= m < k :: slots[m].flag != USED
               case None => forall m | from <= m < |slots| :: slots[m].flag != USED
      ensures UsedFrom(Contents(), rp.blk, from) ==
              if currentslot.Some? then [Here()] + Rest() else UsedFrom(Contents(), rp.blk + 1, 0)
    {
      var slots := Contents()[rp.blk];
      if currentslot.Some? {
        SkipIn(slots, rp.blk, from, currentslot.value);
      } else {
        SkipIn(slots, rp.blk, from, if from <= |slots| then |slots| else from);
      }
    }

    /** Every record has exactly the fields of the schema, with values that fit. */
    lemma RowHere(r: RID)
      requires Valid() && IsSlotOf(Contents(), r)
      ensures SlotOf(Contents(), r).row.Keys == set f | f in layout.schema.names
      ensures forall f | f in layout.schema.names ::
                f in layout.schema.info && layout.schema.info[f].Fits(SlotOf(Contents(), r).row[f])
    {
      var p := file.blocks[r.blk];
      SlotsBelow(layout, r.slot, file.blocksize);
      forall f | f in layout.schema.names
        ensures f in layout.schema.info && layout.schema.info[f].Fits(SlotOf(Contents(), r).row[f])
      {
        assert InPlace(layout, p, r.slot, f);
        assert FieldFits(layout, p, r.slot, f);
      }
    }

    method GetVal(f: Str) returns (v: Value)
      requires OnSlot() && f in layout.schema.names
      ensures f in SlotOf(Contents(), Here()).row && v == SlotOf(Contents(), Here()).row[f]
    {
      RowHere(Here());
      assert rp.Here() == Contents()[rp.blk];
      if layout.schema.info[f].kind == INTEGER {
        var i := rp.GetInt(currentslot.value, f);
        v := IntVal(i);
      } else {
        var s := rp.GetString(currentslot.value, f);
        v := StrVal(s);
      }
    }

    /** The table after one of its blocks has changed. */
    lemma OneBlock(was: seq<seq<byte>>, r: RID, x: Slot)
      requires FileOk(layout, file.blocksize, was) && IsSlotOf(TableOf(layout, file.blocksize, was), r)
      requires rp.file == file && rp.layout == layout && rp.blk == r.blk && rp.Valid() && rp.OtherBlocks(was)
      requires rp.Here() == Slots(layout, was[r.blk])[r.slot := x]
      ensures FileOk(layout, file.blocksize, file.blocks)
      ensures Contents() == Put(TableOf(layout, file.blocksize, was), r, x)
    {
      hide Formatted, Slots;
      var t := TableOf(layout, file.blocksize, was);
      forall k | 0 <= k < |t|
        ensures |file.blocks[k]| == file.blocksize && Formatted(layout, file.blocks[k])
        ensures Slots(layout, file.blocks[k]) == Put(t, r, x)[k]
      {
      }
    }

    /** A value of the wrong type makes the source throw; a string that is too long would run into the next field. */
    method SetVal(f: Str, v: Value)
      requires OnSlot() && f in layout.schema.names && layout.schema.info[f].Fits(v)
      modifies file
      ensures OnSlot() && Here() == old(Here()) && Rest() == old(Rest())
      ensures var s := SlotOf(old(Contents()), Here());
              Contents() == Put(old(Contents()), Here(), Slot(s.flag, s.row[f := v]))
    {
      hide Slots, UsedFrom, Formatted;
      ghost var was, r := file.blocks, Here();
      ghost var s := SlotOf(Contents(), r);
      assert rp.Here() == Contents()[rp.blk];
      match v {
        case IntVal(i) => rp.SetInt(currentslot.value, f, i);
        case StrVal(x) => rp.SetString(currentslot.value, f, x);
      }
      OneBlock(was, r, Slot(s.flag, s.row[f := v]));
      PutBefore(TableOf(layout, file.blocksize, was), r, Slot(s.flag, s.row[f := v]), rp.blk, NextSlot());
    }

    method DeleteRecord()
      requires OnSlot()
      modifies file
      ensures OnSlot() && Here() == old(Here()) && Rest() == old(Rest())
      ensures Contents() == Put(old(Contents()), Here(), Slot(EMPTY, SlotOf(old(Contents()), Here()).row))
    {
      hide Slots, UsedFrom, Formatted;
      ghost var was, r := file.blocks, Here();
      ghost var s := SlotOf(Contents(), r);
      assert rp.Here() == Contents()[rp.blk];
      rp.DeleteRecord(currentslot.value);
      OneBlock(was, r, Slot(EMPTY, s.row));
      PutBefore(TableOf(layout, file.blocksize, was), r, Slot(EMPTY, s.row), rp.blk, NextSlot());
    }

    method GetRid() returns (rid: Option<RID>)
      requires Valid()
      ensures rid == if currentslot.Some? then Some(Here()) else None
    {
      rid := if currentslot.Some? then Some(RID(rp.blk, currentslot.value)) else None;
    }

    method MoveToRid(rid: RID)
      requires Valid() && IsSlotOf(Contents(), rid)
      modifies this
      ensures OnSlot() && Here() == rid && Contents() == old(Contents())
    {
      rp := new RecordPage(file, rid.blk, layout);
      currentslot := Some(rid.slot);
    }

    /** All slots from slot `s` of block `b` up to `r` are taken. */
    ghost predicate FullUpTo(t: SlotTable, b: nat, s: nat, r: RID) {
      forall q | From(q, b, s) && Ahead(q, r) && IsSlotOf(t, q) :: SlotOf(t, q).flag != EMPTY
    }

    /** Takes an empty slot of the current block, if there is one behind the cursor. */
    method InsertHere()
      requires Valid()
      modifies `currentslot, file
      ensures Valid() && rp == old(rp)
      ensures currentslot.None? ==>
                Contents() == old(Contents())
                && forall m | old(NextSlot()) <= m < |Contents()[rp.blk]| :: Contents()[rp.blk][m].flag != EMPTY
      ensures currentslot.Some? ==>
                && Here().slot >= old(NextSlot()) && IsSlotOf(old(Contents()), Here())
                && (var s := SlotOf(old(Contents()), Here());
                    s.flag == EMPTY && Contents() == Put(old(Contents()), Here(), Slot(USED, s.row)))
                && forall m | old(NextSlot()) <= m < Here().slot :: old(Contents())[rp.blk][m].flag != EMPTY
    {
      hide Slots, Formatted;
      ghost var was, t := file.blocks, Contents();
      assert rp.Here() == t[rp.blk];
      var found := rp.InsertAfter(currentslot);
      currentslot := found;
      if found.Some? {
        OneBlock(was, RID(rp.blk, found.value), Slot(USED, t[rp.blk][found.value].row));
      } else {
        SameBlocks(was);
      }
    }

    lemma SameBlocks(was: seq<seq<byte>>)
      requires FileOk(layout, file.blocksize, was)
      requires rp.file == file && rp.layout == layout && rp.blk < |was| && rp.Valid() && rp.OtherBlocks(was)
      requires rp.Here() == Slots(layout, was[rp.blk])
      ensures FileOk(layout, file.blocksize, file.blocks)
      ensures Contents() == TableOf(layout, file.blocksize, was)
    {
      hide Formatted, Slots;
      forall k | 0 <= k < |was|
        ensures |file.blocks[k]| == file.blocksize && Formatted(layout, file.blocks[k])
        ensures Slots(layout, file.blocks[k]) == Slots(layout, was[k])
      {
      }
    }

    /**
     Takes the first empty slot behind the cursor, in a new block if there is none; no other record changes. The new
     record keeps the field values that were left in the slot.
     */
    method Insert() returns (ghost grown: bool)
      requires Valid()
      modifies this, file
      ensures OnSlot()
      ensures var t := old(Contents()) + if grown then [BlankBlock(layout, file.blocksize)] else [];
              && IsSlotOf(t, Here()) && SlotOf(t, Here()).flag == EMPTY && From(Here(), old(rp.blk), old(NextSlot()))
              && Contents() == Put(t, Here(), Slot(USED, SlotOf(t, Here()).row))
              && FullUpTo(t, old(rp.blk), old(NextSlot()), Here()) && (grown ==> Here() == RID(|old(Contents())|, 0))
    {
      hide Slots, Formatted, TableOf;
      ghost var t, b, s := Contents(), rp.blk, NextSlot();
      grown := false;
      InsertHere();
      while currentslot.None?
        invariant Valid() && b <= rp.blk
        invariant currentslot.None? ==> !grown && Contents() == t
        invariant currentslot.None? ==> FullUpTo(t, b, s, RID(rp.blk + 1, 0))
        invariant currentslot.Some? ==>
                    var t' := t + if grown then [BlankBlock(layout, file.blocksize)] else [];
                    && IsSlotOf(t', Here()) && SlotOf(t', Here()).flag == EMPTY && From(Here(), b, s)
                    && Contents() == Put(t', Here(), Slot(USED, SlotOf(t', Here()).row))
                    && FullUpTo(t', b, s, Here()) && (grown ==> Here() == RID(|t|, 0))
        decreases |t| - rp.blk, if currentslot.None? then 1 else 0
      {
        if AtLastBlock() {
          MoveToNewBlock();
          grown := true;
          SlotCountPositive(layout, file.blocksize);
          assert Contents()[rp.blk] == BlankBlock(layout, file.blocksize);
          assert Contents()[rp.blk][0].flag == EMPTY;
        } else {
          MoveToBlock(rp.blk + 1);
        }
        InsertHere();
      }
    }
  }
}

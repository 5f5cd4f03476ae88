/**
 `RecordPage`: the slots of one block of a table file.
 */
module Records {
  import opened Types
  import opened Ordering
  import opened Pages
  import opened Layouts

  // ---------------------------------------------------------------------------------------------
  // The file
  // ---------------------------------------------------------------------------------------------

  /** The blocks of one file, as the transaction that works on them sees them. */
  class TableFile {
    const blocksize: nat
    var blocks: seq<seq<byte>>

    constructor (blocksize: nat)
      ensures this.blocksize == blocksize && blocks == []
    {
      this.blocksize, blocks := blocksize, [];
    }

    predicate Has(blk: nat)
      reads this
    {
      blk < |blocks| && |blocks[blk]| == blocksize
    }

    method ReadInt(blk: nat, off: nat) returns (v: int32)
      requires Has(blk) && Pages.GetInt(blocks[blk], off).Some?
      ensures Pages.GetInt(blocks[blk], off) == Some(v)
    {
      v := Pages.GetInt(blocks[blk], off).value;
    }

    method ReadString(blk: nat, off: nat) returns (s: Str)
      requires Has(blk) && GetBytes(blocks[blk], off).Some?
      ensures GetBytes(blocks[blk], off) == Some(s)
    {
      s := GetBytes(blocks[blk], off).value;
    }

    method WriteInt(blk: nat, off: nat, v: int32)
      requires Has(blk) && off + 4 <= blocksize
      modifies this
      ensures blocks == old(blocks)[blk := Splice(old(blocks)[blk], off, IntBytes(v))]
    {
      blocks := blocks[blk := Splice(blocks[blk], off, IntBytes(v))];
    }

    method WriteString(blk: nat, off: nat, s: Str)
      requires Has(blk) && FitsLength(s) && off + 4 + |s| <= blocksize
      modifies this
      ensures blocks == old(blocks)[blk := Splice(old(blocks)[blk], off, Blob(s))]
    {
      blocks := blocks[blk := Splice(blocks[blk], off, Blob(s))];
    }

    /** A new block of zeros. */
    method Append() returns (blk: nat)
      modifies this
      ensures blk == |old(blocks)| && blocks == old(blocks) + [Zeros(blocksize)]
    {
      blk := |blocks|;
      blocks := blocks + [Zeros(blocksize)];
    }
  }

  function Zeros(n: nat): (z: seq<byte>)
    ensures |z| == n && forall k | 0 <= k < n :: z[k] == 0
  {
    seq(n, _ => 0)
  }

  // ---------------------------------------------------------------------------------------------
  // A formatted block
  // ---------------------------------------------------------------------------------------------

  /** The record that formatting leaves in a slot. */
  function Blank(schema: Fields): Row
    requires schema.Complete()
  {
    map f | f in schema.names :: if schema.info[f].kind == INTEGER then IntVal(0) else StrVal([])
  }

  /** What formatting writes into a field. */
  function BlankValue(l: Layout, f: Str): Value
    requires f in l.schema.info
  {
    if l.schema.info[f].kind == INTEGER then IntVal(0) else StrVal([])
  }

  ghost predicate BlankField(l: Layout, p: seq<byte>, slot: nat, f: Str) {
    FieldFits(l, p, slot, f) && ReadField(l, p, slot, f) == Some(BlankValue(l, f))
  }

  predicate EmptyFlag(l: Layout, p: seq<byte>, slot: nat) {
    GetInt(p, SlotPos(l, slot)) == Some(EMPTY)
  }

  /** The first slots are formatted. */
  ghost predicate BlankTo(l: Layout, p: seq<byte>, slot: nat) {
    && (forall s: nat, f | s < slot && InPlace(l, p, s, f) :: BlankField(l, p, s, f))
    && (forall s: nat | s < slot && IsSlot(l, s, |p|) :: EmptyFlag(l, p, s))
  }

  /** So are the flag and the first fields of the next one. */
  ghost predicate BlankPart(l: Layout, p: seq<byte>, slot: nat, k: nat) {
    && k <= |l.schema.names| && BlankTo(l, p, slot) && EmptyFlag(l, p, slot)
    && forall m | 0 <= m < k :: BlankField(l, p, slot, l.schema.names[m])
  }

  lemma BlankFlag(l: Layout, p: seq<byte>, slot: nat)
    requires Good(l) && IsSlot(l, slot, |p|) && BlankTo(l, p, slot)
    ensures SlotPos(l, slot) + FLAG_SIZE <= |p|
    ensures BlankPart(l, Splice(p, SlotPos(l, slot), IntBytes(EMPTY)), slot, 0)
  {
    hide ReadField, GetInt, SlotPos;
    FlagIndependence(l, p, slot, EMPTY);
    var q := Splice(p, SlotPos(l, slot), IntBytes(EMPTY));
    forall s: nat, f | s < slot && InPlace(l, q, s, f)
      ensures BlankField(l, q, s, f)
    {
      assert InPlace(l, p, s, f);
      SameFieldReads(l, p, q, s, f);
    }
    forall s: nat | s < slot && IsSlot(l, s, |q|)
      ensures EmptyFlag(l, q, s)
    {
      SameFlagReads(l, p, q, s);
    }
  }

  lemma BlankNext(l: Layout, p: seq<byte>, slot: nat, k: nat)
    requires Good(l) && IsSlot(l, slot, |p|) && BlankPart(l, p, slot, k) && k < |l.schema.names|
    ensures var f := l.schema.names[k];
            && InPlace(l, p, slot, f) && FieldPos(l, slot, f) + |FieldBytes(BlankValue(l, f))| <= |p|
            && BlankPart(l, Splice(p, FieldPos(l, slot, f), FieldBytes(BlankValue(l, f))), slot, k + 1)
  {
    hide ReadField, GetInt, SlotPos, FieldPos, FieldBytes;
    var f := l.schema.names[k];
    var v := BlankValue(l, f);
    assert InPlace(l, p, slot, f);
    FieldIndependence(l, p, slot, f, v);
    var q := Splice(p, FieldPos(l, slot, f), FieldBytes(v));
    forall s: nat, g | InPlace(l, q, s, g) && (s < slot || (s == slot && (g == f || g in l.schema.names[..k])))
      ensures BlankField(l, q, s, g)
    {
      assert InPlace(l, p, s, g);
      if s != slot || g != f {
        SameFieldReads(l, p, q, s, g);
      }
    }
    forall s: nat | s <= slot && IsSlot(l, s, |q|)
      ensures EmptyFlag(l, q, s)
    {
      SameFlagReads(l, p, q, s);
    }
    forall m | 0 <= m < k + 1
      ensures BlankField(l, q, slot, l.schema.names[m])
    {
      assert m < k ==> l.schema.names[..k][m] == l.schema.names[m];
      assert InPlace(l, q, slot, l.schema.names[m]);
    }
  }

  lemma NothingBlank(l: Layout, p: seq<byte>)
    ensures BlankTo(l, p, 0)
  {}

  lemma BlankSlot(l: Layout, p: seq<byte>, slot: nat)
    requires BlankPart(l, p, slot, |l.schema.names|)
    ensures BlankTo(l, p, slot + 1)
  {
    forall s: nat, f | s < slot + 1 && InPlace(l, p, s, f)
      ensures BlankField(l, p, s, f)
    {
      if s == slot {
        var m :| 0 <= m < |l.schema.names| && l.schema.names[m] == f;
      }
    }
  }

  /** When all slots are formatted, every slot is empty and blank, whatever the block held before. */
  lemma AllBlank(l: Layout, p: seq<byte>)
    requires Good(l) && BlankTo(l, p, SlotCount(l, |p|))
    ensures Formatted(l, p)
    ensures Slots(l, p) == seq(SlotCount(l, |p|), _ => Slot(EMPTY, Blank(l.schema)))
  {
    hide ReadField, GetInt, SlotPos;
    forall s: nat, f | InPlace(l, p, s, f)
      ensures BlankField(l, p, s, f)
    {
      SlotsBelow(l, s, |p|);
    }
    forall k: nat | k < SlotCount(l, |p|)
      ensures Slots(l, p)[k] == Slot(EMPTY, Blank(l.schema))
    {
      SlotsBelow(l, k, |p|);
      assert EmptyFlag(l, p, k);
      assert forall f | f in l.schema.names :: InPlace(l, p, k, f);
    }
  }

  // ---------------------------------------------------------------------------------------------
  // RecordPage
  // ---------------------------------------------------------------------------------------------

  class RecordPage {
    const file: TableFile
    const blk: nat
    const layout: Layout

    ghost predicate Valid()
      reads file
    {
      Good(layout) && file.Has(blk) && Formatted(layout, file.blocks[blk])
    }

    ghost function Here(): (s: seq<Slot>)
      requires Valid()
      reads file
      ensures |s| == SlotCount(layout, file.blocksize)
    {
      Slots(layout, file.blocks[blk])
    }

    constructor (file: TableFile, blk: nat, layout: Layout)
      ensures this.file == file && this.blk == blk && this.layout == layout
    {
      this.file, this.blk, this.layout := file, blk, layout;
    }

    predicate IsValidSlot(slot: nat) {
      SlotPos(layout, slot + 1) <= file.blocksize
    }

    /** The field of a slot is where the layout puts it, and its value is what `Here` says. */
    lemma FieldHere(slot: nat, f: Str)
      requires Valid() && slot < |Here()| && f in layout.schema.names
      ensures f in layout.offsets && InPlace(layout, file.blocks[blk], slot, f)
      ensures f in Here()[slot].row && ReadField(layout, file.blocks[blk], slot, f) == Some(Here()[slot].row[f])
      ensures layout.schema.info[f].Fits(Here()[slot].row[f])
    {
      SlotsBelow(layout, slot, file.blocksize);
      assert InPlace(layout, file.blocks[blk], slot, f);
      assert FieldFits(layout, file.blocks[blk], slot, f);
    }

    method GetInt(slot: nat, f: Str) returns (v: int32)
      requires Valid() && slot < |Here()| && f in layout.schema.names && layout.schema.info[f].kind == INTEGER
      ensures f in Here()[slot].row && Here()[slot].row[f] == IntVal(v)
    {
      FieldHere(slot, f);
      var fldpos := SlotPos(layout, slot) + layout.offsets[f];
      v := file.ReadInt(blk, fldpos);
    }

    method GetString(slot: nat, f: Str) returns (v: Str)
      requires Valid() && slot < |Here()| && f in layout.schema.names && layout.schema.info[f].kind == VARCHAR
      ensures f in Here()[slot].row && Here()[slot].row[f] == StrVal(v)
    {
      FieldHere(slot, f);
      var fldpos := SlotPos(layout, slot) + layout.offsets[f];
      v := file.ReadString(blk, fldpos);
    }

    method SetInt(slot: nat, f: Str, v: int32)
      requires Valid() && slot < |Here()| && f in layout.schema.names && layout.schema.info[f].Fits(IntVal(v))
      modifies file
      ensures Valid() && OtherBlocks(old(file.blocks))
      ensures Here() == old(Here())[slot := Slot(old(Here())[slot].flag, old(Here())[slot].row[f := IntVal(v)])]
    {
      FieldHere(slot, f);
      WriteField(layout, file.blocks[blk], slot, f, IntVal(v));
      var fldpos := SlotPos(layout, slot) + layout.offsets[f];
      file.WriteInt(blk, fldpos, v);
    }

    /** Nothing in the source checks that the string is not longer than declared. */
    method SetString(slot: nat, f: Str, v: Str)
      requires Valid() && slot < |Here()| && f in layout.schema.names && layout.schema.info[f].Fits(StrVal(v))
      modifies file
      ensures Valid() && OtherBlocks(old(file.blocks))
      ensures Here() == old(Here())[slot := Slot(old(Here())[slot].flag, old(Here())[slot].row[f := StrVal(v)])]
    {
      FieldHere(slot, f);
      WriteField(layout, file.blocks[blk], slot, f, StrVal(v));
      var fldpos := SlotPos(layout, slot) + layout.offsets[f];
      file.WriteString(blk, fldpos, v);
    }

    /** No other block has changed. */
    ghost predicate OtherBlocks(was: seq<seq<byte>>)
      reads file
    {
      && |file.blocks| == |was|
      && forall k | 0 <= k < |was| && k != blk :: file.blocks[k] == was[k]
    }

    method SetFlag(slot: nat, flag: int32)
      requires Valid() && slot < |Here()|
      modifies file
      ensures Valid() && OtherBlocks(old(file.blocks))
      ensures Here() == old(Here())[slot := Slot(flag, old(Here())[slot].row)]
    {
      SlotsBelow(layout, slot, file.blocksize);
      WriteFlag(layout, file.blocks[blk], slot, flag);
      file.WriteInt(blk, SlotPos(layout, slot), flag);
    }

    method DeleteRecord(slot: nat)
      requires Valid() && slot < |Here()|
      modifies file
      ensures Valid() && OtherBlocks(old(file.blocks))
      ensures Here() == old(Here())[slot := Slot(EMPTY, old(Here())[slot].row)]
    {
      SetFlag(slot, EMPTY);
    }

    /** The first slot behind `slot` with the flag. */
    method SearchAfter(slot: Option<nat>, flag: int32) returns (found: Option<nat>)
      requires Valid()
      ensures var from := if slot.Some? then slot.value + 1 else 0;
              match found
              case Some(k) => from <= k < |Here()| && Here()[k].flag == flag
                              && forall m | from <= m < k :: Here()[m].flag != flag
              case None => forall m | from <= m < |Here()| :: Here()[m].flag != flag
    {
      var from := if slot.Some? then slot.value + 1 else 0;
      var current := from;
      while IsValidSlot(current)
        invariant from <= current && (current == from || current <= |Here()|)
        invariant forall m | from <= m < current :: Here()[m].flag != flag
        decreases |Here()| - current
      {
        SlotsBelow(layout, current, file.blocksize);
        SlotOrder(layout, current, current);
        var f := file.ReadInt(blk, SlotPos(layout, current));
        if f == flag {
          return Some(current);
        }
        current := current + 1;
      }
      SlotsBelow(layout, current, file.blocksize);
      found := None;
    }

    method NextAfter(slot: Option<nat>) returns (found: Option<nat>)
      requires Valid()
      ensures var from := if slot.Some? then slot.value + 1 else 0;
              match found
              case Some(k) => from <= k < |Here()| && Here()[k].flag == USED
                              && forall m | from <= m < k :: Here()[m].flag != USED
              case None => forall m | from <= m < |Here()| :: Here()[m].flag != USED
    {
      found := SearchAfter(slot, USED);
    }

    /** Takes the first empty slot behind `slot`; the fields keep what was left there. */
    method InsertAfter(slot: Option<nat>) returns (found: Option<nat>)
      requires Valid()
      modifies file
      ensures Valid() && OtherBlocks(old(file.blocks))
      ensures var from := if slot.Some? then slot.value + 1 else 0; var was := old(Here());
              match found
              case Some(k) => from <= k < |was| && was[k].flag == EMPTY == 0
                              && (forall m | from <= m < k :: was[m].flag != EMPTY)
                              && Here() == was[k := Slot(USED, was[k].row)] && Here()[k].flag == 1
              case None => Here() == was && forall m | from <= m < |was| :: was[m].flag != EMPTY
    {
      found := SearchAfter(slot, EMPTY);
      if found.Some? {
        SetFlag(found.value, USED);
      }
    }

    /** Formats a block, whatever it holds. */
    method Format()
      requires Good(layout) && file.Has(blk)
      modifies file
      ensures Valid() && OtherBlocks(old(file.blocks))
      ensures Here() == seq(SlotCount(layout, file.blocksize), _ => Slot(EMPTY, Blank(layout.schema)))
      ensures forall slot, f | 0 <= slot < |Here()| && f in layout.schema.names ::
                && Here()[slot].flag == 0 && f in Here()[slot].row
                && Here()[slot].row[f] == if layout.schema.info[f].kind == INTEGER then IntVal(0) else StrVal([])
    {
      hide InPlace, BlankTo, BlankPart, FieldBytes;
      var slot := 0;
      assert BlankTo(layout, file.blocks[blk], 0) by {
        NothingBlank(layout, file.blocks[blk]);
      }
      while IsValidSlot(slot)
        invariant file.Has(blk) && OtherBlocks(old(file.blocks)) && slot <= SlotCount(layout, file.blocksize)
        invariant BlankTo(layout, file.blocks[blk], slot)
        decreases SlotCount(layout, file.blocksize) - slot
      {
        SlotsBelow(layout, slot, file.blocksize);
        BlankFlag(layout, file.blocks[blk], slot);
        file.WriteInt(blk, SlotPos(layout, slot), EMPTY);
        for k := 0 to |layout.schema.names|
          invariant file.Has(blk) && OtherBlocks(old(file.blocks))
          invariant BlankPart(layout, file.blocks[blk], slot, k)
        {
          BlankNext(layout, file.blocks[blk], slot, k);
          FormatField(slot, layout.schema.names[k]);
        }
        BlankSlot(layout, file.blocks[blk], slot);
        slot := slot + 1;
      }
      SlotsBelow(layout, slot, file.blocksize);
      AllBlank(layout, file.blocks[blk]);
    }

    /** Writes the blank value of a field. */
    method FormatField(slot: nat, fldname: Str)
      requires file.Has(blk) && InPlace(layout, file.blocks[blk], slot, fldname)
      modifies file
      ensures var pos, v := FieldPos(layout, slot, fldname), BlankValue(layout, fldname);
              && pos + |FieldBytes(v)| <= file.blocksize
              && file.blocks == old(file.blocks)[blk := Splice(old(file.blocks)[blk], pos, FieldBytes(v))]
    {
      PlaceInBlock(layout, file.blocks[blk], slot, fldname);
      var fldpos := SlotPos(layout, slot) + layout.offsets[fldname];
      if layout.schema.info[fldname].kind == INTEGER {
        file.WriteInt(blk, fldpos, 0);
      } else {
        file.WriteString(blk, fldpos, []);
      }
    }
  }
}

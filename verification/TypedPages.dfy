/**
 Typed values and bytes: a page of records shows one value at the place of every field and flag, and setting a value
 there is what `Page` does to the bytes. So undoing log records on the bytes undoes them on the values.
 */
module TypedPages {
  import opened Types
  import opened LogMeaning
  import opened History
  import opened Engine
  import opened CrashSafety
  import opened Pages
  import opened Layouts

  // ---------------------------------------------------------------------------------------------
  // What a page shows
  // ---------------------------------------------------------------------------------------------

  predicate FieldShown(l: Layout, p: seq<byte>, c: Cells, slot: nat, f: Str) {
    && f in l.offsets && f in l.schema.info && FieldPos(l, slot, f) in c
    && var v := c[FieldPos(l, slot, f)]; ReadField(l, p, slot, f) == Some(v) && l.schema.info[f].Fits(v)
  }

  predicate FlagShown(l: Layout, p: seq<byte>, c: Cells, slot: nat) {
    var o := SlotPos(l, slot);
    o in c && c[o].IntVal? && GetInt(p, o) == Some(c[o].i)
  }

  /** `c` has the values that are read at the places of the fields and flags of a page. */
  ghost predicate Shows(l: Layout, p: seq<byte>, c: Cells) {
    && Good(l)
    && (forall slot: nat, f | InPlace(l, p, slot, f) :: FieldShown(l, p, c, slot, f))
    && (forall slot: nat | IsSlot(l, slot, |p|) :: FlagShown(l, p, c, slot))
  }

  /** `Page::set_int` and `set_string`: nothing is written where they throw. */
  function PutBytes(p: seq<byte>, off: nat, v: Value): (q: seq<byte>)
    ensures |q| == |p|
  {
    if (v.StrVal? ==> FitsLength(v.s)) && off + |FieldBytes(v)| <= |p| then Splice(p, off, FieldBytes(v)) else p
  }

  /** A value written at a field's place is the typed write. */
  lemma FieldWrite(l: Layout, p: seq<byte>, c: Cells, slot: nat, f: Str, v: Value)
    requires Shows(l, p, c) && InPlace(l, p, slot, f) && l.schema.info[f].Fits(v)
    ensures var o := FieldPos(l, slot, f); Shows(l, PutBytes(p, o, v), c[o := v])
  {
    hide SlotPos, Splice, ReadField, SameField, SameFlag, FieldPos;
    FieldIndependence(l, p, slot, f, v);
    var o := FieldPos(l, slot, f);
    var q, c' := PutBytes(p, o, v), c[o := v];
    forall slot': nat, g | InPlace(l, q, slot', g)
      ensures FieldShown(l, q, c', slot', g)
    {
      assert InPlace(l, p, slot', g) && FieldShown(l, p, c, slot', g);
      if slot' != slot || g != f {
        PlacesApart(l, p, slot, f, slot', g);
        SameFieldReads(l, p, q, slot', g);
      }
    }
    forall slot': nat | IsSlot(l, slot', |q|)
      ensures FlagShown(l, q, c', slot')
    {
      assert FlagShown(l, p, c, slot');
      FlagApart(l, p, slot, f, slot');
      SameFlagReads(l, p, q, slot');
    }
  }

  /** And so is a flag. */
  lemma FlagWrite(l: Layout, p: seq<byte>, c: Cells, slot: nat, flag: int32)
    requires Shows(l, p, c) && IsSlot(l, slot, |p|)
    ensures var o := SlotPos(l, slot); Shows(l, PutBytes(p, o, IntVal(flag)), c[o := IntVal(flag)])
  {
    hide SlotPos, Splice, ReadField, SameField, SameFlag, FieldPos;
    FlagIndependence(l, p, slot, flag);
    var o := SlotPos(l, slot);
    var q, c' := PutBytes(p, o, IntVal(flag)), c[o := IntVal(flag)];
    forall slot': nat, g | InPlace(l, q, slot', g)
      ensures FieldShown(l, q, c', slot', g)
    {
      assert InPlace(l, p, slot', g) && FieldShown(l, p, c, slot', g);
      FlagApart(l, p, slot', g, slot);
      SameFieldReads(l, p, q, slot', g);
    }
    forall slot': nat | IsSlot(l, slot', |q|)
      ensures FlagShown(l, q, c', slot')
    {
      assert FlagShown(l, p, c, slot');
      if slot' != slot {
        SlotOrder(l, slot, slot');
        SlotOrder(l, slot', slot);
        SlotOrder(l, slot, slot);
        SlotOrder(l, slot', slot');
        SameFlagReads(l, p, q, slot');
      }
    }
  }

  /** The values decide the records: pages that show the same ones have the same slots. */
  lemma SameSlots(l: Layout, p: seq<byte>, q: seq<byte>, c: Cells)
    requires Shows(l, p, c) && Shows(l, q, c) && |p| == |q|
    ensures Good(l) && Formatted(l, p) && Formatted(l, q) && Slots(l, p) == Slots(l, q)
  {
    hide ReadField, FieldPos, SlotPos;
    assert Formatted(l, p) by {
      assert forall slot: nat, f | InPlace(l, p, slot, f) :: FieldShown(l, p, c, slot, f);
    }
    assert Formatted(l, q) by {
      assert forall slot: nat, f | InPlace(l, q, slot, f) :: FieldShown(l, q, c, slot, f);
    }
    forall k: nat | k < SlotCount(l, |p|)
      ensures Slots(l, p)[k] == Slots(l, q)[k]
    {
      SlotsBelow(l, k, |p|);
      OneSlot(l, p, q, c, k);
    }
  }

  lemma OneSlot(l: Layout, p: seq<byte>, q: seq<byte>, c: Cells, slot: nat)
    requires Shows(l, p, c) && Shows(l, q, c) && |p| == |q| && Formatted(l, p) && Formatted(l, q)
    requires IsSlot(l, slot, |p|)
    ensures SlotAt(l, p, slot) == SlotAt(l, q, slot)
  {
    hide ReadField, FieldPos, SlotPos;
    assert FlagShown(l, p, c, slot) && FlagShown(l, q, c, slot);
    forall f | f in l.schema.names
      ensures ReadField(l, p, slot, f) == ReadField(l, q, slot, f)
    {
      assert InPlace(l, p, slot, f) && InPlace(l, q, slot, f);
      assert FieldShown(l, p, c, slot, f) && FieldShown(l, q, c, slot, f);
    }
  }

  // ---------------------------------------------------------------------------------------------
  // One undo
  // ---------------------------------------------------------------------------------------------

  /** Writing a value and then the old one again brings the values and the records back. */
  lemma UndoRestores(l: Layout, p: seq<byte>, c: Cells, slot: nat, f: Str, v: Value)
    requires Shows(l, p, c) && InPlace(l, p, slot, f) && l.schema.info[f].Fits(v)
    ensures FieldShown(l, p, c, slot, f)
    ensures var o := FieldPos(l, slot, f); var r := PutBytes(PutBytes(p, o, v), o, c[o]);
            Shows(l, r, c) && Formatted(l, p) && Formatted(l, r) && Slots(l, r) == Slots(l, p)
  {
    hide ReadField, FieldPos, PutBytes, Formatted;
    assert FieldShown(l, p, c, slot, f);
    var o := FieldPos(l, slot, f);
    var q := PutBytes(p, o, v);
    FieldWrite(l, p, c, slot, f, v);
    assert InPlace(l, q, slot, f);
    FieldWrite(l, q, c[o := v], slot, f, c[o]);
    assert c[o := v][o := c[o]] == c;
    SameSlots(l, p, PutBytes(q, o, c[o]), c);
  }

  lemma Puts(p: seq<byte>, o: nat, v: Value)
    requires (v.StrVal? ==> FitsLength(v.s)) && o + |FieldBytes(v)| <= |p|
    ensures PutBytes(p, o, v) == Splice(p, o, FieldBytes(v))
  {}

  predicate IsShown(p: seq<byte>, o: nat, v: Value) {
    match v
    case IntVal(i) => GetInt(p, o) == Some(i)
    case StrVal(s) => GetBytes(p, o) == Some(s)
  }

  /** Four bytes or a string at its place. */
  lemma BytesShown(p: seq<byte>, o: nat, v: Value)
    requires IsShown(p, o, v)
    ensures (v.StrVal? ==> FitsLength(v.s)) && o + |FieldBytes(v)| <= |p| && p[o..o + |FieldBytes(v)|] == FieldBytes(v)
  {
    match v {
      case IntVal(i) => BytesRoundTrip(p[o..o + 4]);
      case StrVal(s) =>
        BytesRoundTrip(p[o..o + 4]);
        assert p[o..o + 4 + |s|] == p[o..o + 4] + p[o + 4..o + 4 + |s|];
    }
  }

  /**
   The bytes come back too, exactly if the value written was not longer than the old one or ended in the bytes that
   stood behind the old one.
   */
  lemma UndoBytesIff(p: seq<byte>, o: nat, was: Value, v: Value)
    requires IsShown(p, o, was) && (v.StrVal? ==> FitsLength(v.s)) && o + |FieldBytes(v)| <= |p|
    ensures was.StrVal? ==> FitsLength(was.s)
    ensures var m, n := |FieldBytes(was)|, |FieldBytes(v)|;
            PutBytes(PutBytes(p, o, v), o, was) == p <==> n <= m || p[o + m..o + n] == FieldBytes(v)[m..]
  {
    hide PutBytes, Splice, FieldBytes, IsShown;
    BytesShown(p, o, was);
    Puts(p, o, v);
    Puts(Splice(p, o, FieldBytes(v)), o, was);
    TwoSplices(p, o, FieldBytes(was), FieldBytes(v));
  }

  /** The bytes behind `x` up to the length of `y` decide. */
  lemma Behind(p: seq<byte>, q: seq<byte>, o: nat, x: seq<byte>, y: seq<byte>)
    requires |q| == |p| && |x| < |y| && o + |y| <= |p|
    requires forall k | 0 <= k < |p| && !(o + |x| <= k < o + |y|) :: q[k] == p[k]
    requires forall k | |x| <= k < |y| :: q[o + k] == y[k]
    ensures q == p <==> p[o + |x|..o + |y|] == y[|x|..]
  {
    var behind := p[o + |x|..o + |y|];
    assert forall k | |x| <= k < |y| :: behind[k - |x|] == p[o + k] && y[|x|..][k - |x|] == y[k];
    if q == p {
      assert forall j | 0 <= j < |behind| :: behind[j] == q[o + (|x| + j)];
    }
    if behind == y[|x|..] {
      forall k | o + |x| <= k < o + |y|
        ensures q[k] == p[k]
      {
        assert q[o + (k - o)] == y[k - o] == behind[k - o - |x|];
      }
    }
  }

  lemma TwoSplices(p: seq<byte>, o: nat, x: seq<byte>, y: seq<byte>)
    requires o + |x| <= |p| && o + |y| <= |p| && p[o..o + |x|] == x
    ensures Splice(Splice(p, o, y), o, x) == p <==> |y| <= |x| || p[o + |x|..o + |y|] == y[|x|..]
  {
    var q := Splice(Splice(p, o, y), o, x);
    forall k | 0 <= k < |p| && !(o + |x| <= k < o + |y|)
      ensures q[k] == p[k]
    {
      if o <= k < o + |x| {
        assert p[o..o + |x|][k - o] == p[k];
      }
    }
    forall k | |x| <= k < |y|
      ensures q[o + k] == y[k]
    {}
    if |x| < |y| {
      Behind(p, q, o, x, y);
    }
  }

  // ---------------------------------------------------------------------------------------------
  // A list of log records, and recovery
  // ---------------------------------------------------------------------------------------------

  /** The values of one block. */
  function BlockOf(s: Store, b: BlockId): Cells {
    map l | l in s && l.blk == b :: l.off := s[l]
  }

  /** The bytes of a block after one record has been undone on them. */
  function UndoBytes(p: seq<byte>, b: BlockId, r: LogRecord): (q: seq<byte>)
    ensures |q| == |p|
  {
    if r.IsSet() && r.blk == b then PutBytes(p, r.offset, r.OldValue()) else p
  }

  function ApplyUndoBytes(p: seq<byte>, b: BlockId, todo: seq<LogRecord>): (q: seq<byte>)
    ensures |q| == |p|
    decreases |todo|
  {
    if todo == [] then p else ApplyUndoBytes(UndoBytes(p, b, todo[0]), b, todo[1..])
  }

  ghost predicate AtField(l: Layout, p: seq<byte>, slot: nat, f: Str, off: nat, v: Value) {
    InPlace(l, p, slot, f) && FieldPos(l, slot, f) == off && l.schema.info[f].Fits(v)
  }

  predicate AtFlag(l: Layout, p: seq<byte>, slot: nat, off: nat, v: Value) {
    IsSlot(l, slot, |p|) && SlotPos(l, slot) == off && v.IntVal?
  }

  /** The record is about a field, with a value that fits, or about a flag. */
  ghost predicate AtPlace(l: Layout, p: seq<byte>, r: LogRecord)
    requires r.IsSet()
  {
    || (exists slot: nat, f :: AtField(l, p, slot, f, r.offset, r.OldValue()))
    || (exists slot: nat :: AtFlag(l, p, slot, r.offset, r.OldValue()))
  }

  /** Every update record about block `b` is about a field or a flag. */
  ghost predicate AllAtPlaces(l: Layout, p: seq<byte>, b: BlockId, lg: seq<LogRecord>) {
    forall r | r in lg && r.IsSet() && r.blk == b :: AtPlace(l, p, r)
  }

  lemma UndoOneShown(l: Layout, p: seq<byte>, s: Store, b: BlockId, r: LogRecord)
    requires Shows(l, p, BlockOf(s, b)) && (r.IsSet() && r.blk == b ==> AtPlace(l, p, r))
    ensures Shows(l, UndoBytes(p, b, r), BlockOf(UndoOne(r, s), b))
  {
    hide Shows, PutBytes, Good, IsSlot;
    if r.IsSet() && r.blk == b {
      var o, v := r.offset, r.OldValue();
      assert BlockOf(UndoOne(r, s), b) == BlockOf(s, b)[o := v];
      if slot: nat, f :| AtField(l, p, slot, f, o, v) {
        FieldWrite(l, p, BlockOf(s, b), slot, f, v);
      } else {
        var slot: nat :| AtFlag(l, p, slot, o, v);
        FlagWrite(l, p, BlockOf(s, b), slot, v.i);
      }
    } else {
      assert BlockOf(UndoOne(r, s), b) == BlockOf(s, b);
    }
  }

  lemma PlacesStay(l: Layout, p: seq<byte>, q: seq<byte>, b: BlockId, lg: seq<LogRecord>)
    requires |q| == |p| && AllAtPlaces(l, p, b, lg)
    ensures AllAtPlaces(l, q, b, lg)
  {
    forall r | r in lg && r.IsSet() && r.blk == b
      ensures AtPlace(l, q, r)
    {
      assert AtPlace(l, p, r);
      if slot: nat, f :| AtField(l, p, slot, f, r.offset, r.OldValue()) {
        assert AtField(l, q, slot, f, r.offset, r.OldValue());
      } else {
        var slot: nat :| AtFlag(l, p, slot, r.offset, r.OldValue());
        assert AtFlag(l, q, slot, r.offset, r.OldValue());
      }
    }
  }

  /** Undoing records on the bytes of a block is undoing them on its values. */
  lemma {:induction false} UndoShown(l: Layout, p: seq<byte>, s: Store, b: BlockId, todo: seq<LogRecord>)
    requires Shows(l, p, BlockOf(s, b)) && AllAtPlaces(l, p, b, todo)
    ensures Shows(l, ApplyUndoBytes(p, b, todo), BlockOf(ApplyUndo(todo, s), b))
    decreases |todo|
  {
    hide Shows, AtPlace, UndoBytes, UndoOne, BlockOf;
    if todo != [] {
      assert todo[0] in todo && forall r | r in todo[1..] :: r in todo;
      UndoOneShown(l, p, s, b, todo[0]);
      PlacesStay(l, p, UndoBytes(p, b, todo[0]), b, todo[1..]);
      UndoShown(l, UndoBytes(p, b, todo[0]), UndoOne(todo[0], s), b, todo[1..]);
    }
  }

  /** The recovery list has records of the log only. */
  lemma {:induction false} UndoListMembers(lg: seq<LogRecord>, fin: seq<nat>)
    ensures forall r | r in UndoList(lg, fin) :: r in lg
  {
    if lg != [] {
      var r, older := lg[|lg| - 1], lg[..|lg| - 1];
      match r {
        case Checkpoint =>
        case Commit(t) => UndoListMembers(older, fin + [t]);
        case Rollback(t) => UndoListMembers(older, fin + [t]);
        case _ => UndoListMembers(older, fin);
      }
    }
  }

  /**
   Crash safety of the bytes. Stop any run at any step; on a page that shows what is then on disk in one block, the undo
   of the recovery list leaves the records of exactly the transactions whose COMMIT is on disk: every page that shows
   the committed values has the same slots.
   */
  lemma RecordsRecovered(d: Store, run: seq<Step>, l: Layout, b: BlockId, p: seq<byte>)
    requires ValidRun(Init(d), run)
    requires Shows(l, p, BlockOf(Exec(Init(d), run).disk, b))
    requires AllAtPlaces(l, p, b, Exec(Init(d), run).log)
    ensures var s := Exec(Init(d), run);
            && s.saved <= |s.log| == |s.hist|
            && var q := ApplyUndoBytes(p, b, UndoList(DurableLog(s), []));
            && Shows(l, q, BlockOf(CommittedStore(d, DurableHistory(s)), b)) && Formatted(l, q)
            && forall q' | |q'| == |p| && Shows(l, q', BlockOf(CommittedStore(d, DurableHistory(s)), b)) ::
                 Formatted(l, q') && Slots(l, q') == Slots(l, q)
  {
    hide Shows, Slots, Formatted, UndoList, ApplyUndo, ApplyUndoBytes, AtPlace, CommittedStore, BlockOf;
    CrashSafe(d, run);
    var s := Exec(Init(d), run);
    var lg := DurableLog(s);
    UndoListMembers(lg, []);
    assert forall r | r in lg :: r in s.log;
    UndoShown(l, p, s.disk, b, UndoList(lg, []));
    var q, c := ApplyUndoBytes(p, b, UndoList(lg, [])), BlockOf(CommittedStore(d, DurableHistory(s)), b);
    SameSlots(l, q, q, c);
    forall q' | |q'| == |p| && Shows(l, q', c)
      ensures Formatted(l, q') && Slots(l, q') == Slots(l, q)
    {
      SameSlots(l, q', q, c);
    }
  }
}

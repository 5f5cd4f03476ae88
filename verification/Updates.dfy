/**
 `SelectScan` on a table, and the DELETE and UPDATE loops of `BasicUpdatePlanner`.
 */
module Updates {
  import opened Types
  import opened Sequences
  import opened Ordering
  import opened Queries
  import opened Layouts
  import opened Records
  import opened TableScans

  /** The record is there and satisfies the predicate. */
  predicate MatchedBy(t: SlotTable, pred: Pred, r: RID) {
    Holds(t, r).Some? && Satisfied(pred, Holds(t, r).value)
  }

  /** Those of a list of records that satisfy the predicate. */
  function Matches(t: SlotTable, pred: Pred, rids: seq<RID>): seq<RID> {
    if rids == [] then []
    else (if MatchedBy(t, pred, rids[0]) then [rids[0]] else []) + Matches(t, pred, rids[1..])
  }

  /** All matching records of a table, in the order of the file. */
  function AllMatches(t: SlotTable, pred: Pred): seq<RID> {
    Matches(t, pred, UsedFrom(t, 0, 0))
  }

  lemma {:induction false} MatchesMembers(t: SlotTable, pred: Pred, rids: seq<RID>)
    ensures forall r :: r in Matches(t, pred, rids) <==> r in rids && MatchedBy(t, pred, r)
  {
    if rids != [] {
      MatchesMembers(t, pred, rids[1..]);
      assert rids == [rids[0]] + rids[1..];
    }
  }

  /** A change of records that are not in the list does not change which of the list match. */
  lemma {:induction false} MatchesSame(t: SlotTable, t': SlotTable, pred: Pred, rids: seq<RID>)
    requires forall r | r in rids :: Holds(t, r) == Holds(t', r)
    ensures Matches(t, pred, rids) == Matches(t', pred, rids)
  {
    if rids != [] {
      assert rids[0] in rids;
      MatchesSame(t, t', pred, rids[1..]);
    }
  }

  /** The matching records are exactly those that satisfy the predicate, each once. */
  lemma AllMatchesMeaning(t: SlotTable, pred: Pred)
    ensures forall r :: r in AllMatches(t, pred) <==> MatchedBy(t, pred, r)
    ensures Distinct(AllMatches(t, pred))
  {
    var all := UsedFrom(t, 0, 0);
    UsedMembers(t, 0, 0);
    assert Distinct(all) by {
      assert forall i, j | 0 <= i < j < |all| :: Ahead(all[i], all[j]);
    }
    MatchesMembers(t, pred, all);
    MatchesDistinct(t, pred, all);
  }

  lemma {:induction false} MatchesDistinct(t: SlotTable, pred: Pred, rids: seq<RID>)
    requires Distinct(rids)
    ensures Distinct(Matches(t, pred, rids))
  {
    if rids != [] {
      assert Distinct(rids[1..]);
      MatchesDistinct(t, pred, rids[1..]);
      MatchesMembers(t, pred, rids[1..]);
      var rest := Matches(t, pred, rids[1..]);
      forall k | 0 <= k < |rest|
        ensures rest[k] != rids[0]
      {
        assert rest[k] in rids[1..];
      }
    }
  }

  class SelectScan {
    const s: TableScan
    const pred: Pred

    /** Every field of the predicate is a field of the table. */
    ghost predicate Valid()
      reads s, s.file
    {
      s.Valid() && forall t | t in pred :: t.AppliesTo(s.layout.schema.names)
    }

    /** The matching records that are still to come. */
    ghost function ToCome(): seq<RID>
      requires Valid()
      reads s, s.file
    {
      Matches(s.Contents(), pred, s.Rest())
    }

    constructor (s: TableScan, pred: Pred)
      requires s.Valid() && forall t | t in pred :: t.AppliesTo(s.layout.schema.names)
      ensures Valid() && this.s == s && this.pred == pred
    {
      this.s, this.pred := s, pred;
    }

    /** `Expression::evaluate` on the current record. */
    method Evaluate(e: Expression) returns (v: Value)
      requires s.OnSlot() && e.AppliesTo(s.layout.schema.names)
      ensures e.Evaluate(SlotOf(s.Contents(), s.Here()).row) == Some(v)
      ensures StandsFor(e, SlotOf(s.Contents(), s.Here()).row, v)
    {
      match e {
        case Const(c) => v := c;
        case Field(f) => v := s.GetVal(f);
      }
    }

    /** `Predicate::is_satisfied` on the current record. */
    method IsSatisfied() returns (ok: bool)
      requires Valid() && s.OnSlot()
      ensures ok <==> Satisfied(pred, SlotOf(s.Contents(), s.Here()).row)
      ensures ok <==> forall t | t in pred :: Agrees(t, SlotOf(s.Contents(), s.Here()).row)
    {
      hide Agrees;
      ghost var row := SlotOf(s.Contents(), s.Here()).row;
      SatisfiedMeaning(pred, row);
      for k := 0 to |pred|
        invariant forall t | t in pred[..k] :: t.IsSatisfied(row)
      {
        assert pred[k] in pred;
        var lhsval := Evaluate(pred[k].lhs);
        var rhsval := Evaluate(pred[k].rhs);
        if lhsval != rhsval {
          return false;
        }
      }
      assert pred[..|pred|] == pred;
      ok := true;
    }

    /** Goes on to the next record that satisfies the predicate. */
    method Next() returns (more: bool)
      requires Valid()
      modifies s
      ensures Valid() && s.Contents() == old(s.Contents())
      ensures more ==> s.OnSlot() && old(ToCome()) == [s.Here()] + ToCome() && MatchedBy(s.Contents(), pred, s.Here())
                       && s.Here() !in s.Rest()
      ensures !more ==> old(ToCome()) == []
    {
      hide FileOk, TableOf, UsedFrom, Satisfied;
      ghost var t := s.Contents();
      more := Step();
      while more
        invariant Valid() && s.Contents() == t
        invariant more ==> s.OnSlot() && Holds(t, s.Here()).Some? && s.Here() !in s.Rest()
        invariant old(ToCome()) == (if more && MatchedBy(t, pred, s.Here()) then [s.Here()] else [])
                                   + (if more then ToCome() else [])
        decreases if more then 1 + |s.Rest()| else 0
      {
        var ok := IsSatisfied();
        if ok {
          return;
        }
        more := Step();
      }
    }

    method Step() returns (more: bool)
      requires Valid()
      modifies s
      ensures Valid() && s.Contents() == old(s.Contents())
      ensures more ==> s.OnSlot() && Holds(s.Contents(), s.Here()).Some? && s.Here() !in s.Rest()
                       && |old(s.Rest())| == 1 + |s.Rest()|
      ensures old(ToCome()) == (if more && MatchedBy(s.Contents(), pred, s.Here()) then [s.Here()] else [])
                               + (if more then ToCome() else [])
    {
      hide FileOk, TableOf, Satisfied;
      ghost var t, rest, b, from := s.Contents(), s.Rest(), s.rp.blk, s.NextSlot();
      UsedMembers(t, b, from);
      more := s.Next();
      if more {
        assert rest[0] == s.Here() && rest[0] in rest && rest[1..] == s.Rest();
        assert forall k | 0 <= k < |s.Rest()| :: Ahead(rest[0], rest[k + 1]) && s.Rest()[k] == rest[k + 1];
      }
    }
  }

  // ---------------------------------------------------------------------------------------------
  // BasicUpdatePlanner
  // ---------------------------------------------------------------------------------------------

  /** What a table holds after its matching records are gone. */
  ghost predicate Deleted(t: SlotTable, t': SlotTable, pred: Pred) {
    forall r :: Holds(t', r) == if MatchedBy(t, pred, r) then None else Holds(t, r)
  }

  /** The record with the new value, computed from its own old values. */
  function Modified(row: Row, f: Str, e: Expression): Row {
    match e.Evaluate(row)
    case Some(v) => row[f := v]
    case None => row
  }

  /** Every matching record has its new value, every other one is as it was. */
  ghost predicate Updated(t: SlotTable, t': SlotTable, pred: Pred, f: Str, e: Expression) {
    forall r :: Holds(t', r) == if MatchedBy(t, pred, r) then Some(Modified(Holds(t, r).value, f, e)) else Holds(t, r)
  }

  /** A record stays exactly if some term has sides that stand for different values. */
  ghost predicate KeepsDiffering(t: SlotTable, t': SlotTable, pred: Pred) {
    forall r ::
      && (Holds(t', r).Some? ==> Holds(t', r) == Holds(t, r))
      && (Holds(t, r).Some? ==> (Holds(t', r).Some? <==> exists x :: x in pred && Differs(x, Holds(t, r).value)))
  }

  /** A record whose terms all agree has the value that the expression stands for; any other one is as it was. */
  ghost predicate SetsAgreeing(t: SlotTable, t': SlotTable, pred: Pred, f: Str, e: Expression) {
    forall r ::
      if Holds(t, r).None? then Holds(t', r).None?
      else
        var row := Holds(t, r).value;
        if forall x | x in pred :: Agrees(x, row)
        then exists v :: StandsFor(e, row, v) && Holds(t', r) == Some(row[f := v])
        else Holds(t', r) == Some(row)
  }

  /** Every field of the predicate is there in every record. */
  ghost predicate PredDefined(t: SlotTable, pred: Pred) {
    forall x, r | x in pred && Holds(t, r).Some? :: x.Defined(Holds(t, r).value)
  }

  lemma RecordsDefined(blocks: seq<seq<byte>>, l: Layout, blocksize: nat, pred: Pred)
    requires FileOk(l, blocksize, blocks) && forall t | t in pred :: t.AppliesTo(l.schema.names)
    ensures PredDefined(TableOf(l, blocksize, blocks), pred)
  {
    hide Formatted, ReadField;
    var t := TableOf(l, blocksize, blocks);
    forall x, r | x in pred && Holds(t, r).Some?
      ensures x.Defined(Holds(t, r).value)
    {
      SlotsBelow(l, r.slot, blocksize);
      assert SlotOf(t, r) == SlotAt(l, blocks[r.blk], r.slot);
    }
  }

  lemma DeletedMeaning(t: SlotTable, t': SlotTable, pred: Pred)
    requires Deleted(t, t', pred) && PredDefined(t, pred)
    ensures KeepsDiffering(t, t', pred)
  {
    hide Agrees, Differs;
    forall r | Holds(t, r).Some?
      ensures MatchedBy(t, pred, r) <==> !exists x :: x in pred && Differs(x, Holds(t, r).value)
    {
      var row := Holds(t, r).value;
      forall x | x in pred
        ensures x.IsSatisfied(row) <==> !Differs(x, row)
      {
        TermMeaning(x, row);
      }
    }
  }

  lemma UpdatedMeaning(t: SlotTable, t': SlotTable, pred: Pred, f: Str, i: FieldInfo, e: Expression)
    requires Updated(t, t', pred, f, e) && NewValuesFit(t, pred, i, e)
    ensures SetsAgreeing(t, t', pred, f, e)
  {
    hide Agrees, StandsFor;
    forall r | Holds(t, r).Some?
      ensures MatchedBy(t, pred, r) <==> forall x | x in pred :: Agrees(x, Holds(t, r).value)
      ensures MatchedBy(t, pred, r) ==>
                exists v :: StandsFor(e, Holds(t, r).value, v) && Holds(t', r) == Some(Holds(t, r).value[f := v])
    {
      var row := Holds(t, r).value;
      SatisfiedMeaning(pred, row);
      if MatchedBy(t, pred, r) {
        EvaluateMeaning(e, row, e.Evaluate(row).value);
      }
    }
  }

  ghost predicate DeletedSome(t: SlotTable, t': SlotTable, done: seq<RID>) {
    forall r :: Holds(t', r) == if r in done then None else Holds(t, r)
  }

  ghost predicate UpdatedSome(t: SlotTable, t': SlotTable, done: seq<RID>, f: Str, e: Expression) {
    forall r :: Holds(t', r) ==
                if r in done && Holds(t, r).Some? then Some(Modified(Holds(t, r).value, f, e)) else Holds(t, r)
  }

  /** Of the matching records of `t`, those in `done` are dealt with; the current one and those to come are not. */
  ghost predicate Working(us: SelectScan, t: SlotTable, done: seq<RID>, more: bool)
    reads us.s, us.s.file
  {
    && us.Valid()
    && (more ==> us.s.OnSlot() && us.s.Here() !in us.s.Rest())
    && done + (if more then [us.s.Here()] + us.ToCome() else []) == AllMatches(t, us.pred)
  }

  lemma NoMatches(t: SlotTable, pred: Pred)
    requires forall r :: Holds(t, r).None?
    ensures AllMatches(t, pred) == []
  {
    NoneMatch(t, pred, UsedFrom(t, 0, 0));
  }

  lemma {:induction false} NoneMatch(t: SlotTable, pred: Pred, rids: seq<RID>)
    requires forall r :: Holds(t, r).None?
    ensures Matches(t, pred, rids) == []
  {
    if rids != [] {
      NoneMatch(t, pred, rids[1..]);
    }
  }

  /** A scan opened on a file: it has the records of the file, and is in front of the first. */
  method OpenSelect(file: TableFile, layout: Layout, pred: Pred) returns (us: SelectScan)
    requires FileOk(layout, file.blocksize, file.blocks) && forall t | t in pred :: t.AppliesTo(layout.schema.names)
    modifies file
    ensures us.Valid() && us.s.file == file && us.s.layout == layout && us.pred == pred && fresh(us) && fresh(us.s)
    ensures us.ToCome() == AllMatches(us.s.Contents(), pred)
    ensures forall r :: Holds(us.s.Contents(), r) == Holds(TableOf(layout, file.blocksize, old(file.blocks)), r)
    ensures AllMatches(us.s.Contents(), pred) == AllMatches(TableOf(layout, file.blocksize, old(file.blocks)), pred)
  {
    hide Satisfied;
    var s := new TableScan(file, layout);
    us := new SelectScan(s, pred);
    if old(file.blocks) == [] {
      NoMatches(us.s.Contents(), pred);
      NoMatches(TableOf(layout, file.blocksize, old(file.blocks)), pred);
    }
  }

  /** When all matching records are dealt with, the table is as it should be. */
  lemma AllDeleted(t0: SlotTable, t: SlotTable, t': SlotTable, pred: Pred, done: seq<RID>)
    requires DeletedSome(t, t', done) && done == AllMatches(t, pred) && forall r :: Holds(t, r) == Holds(t0, r)
    ensures Deleted(t0, t', pred)
  {
    AllMatchesMeaning(t, pred);
  }

  lemma AllUpdated(t0: SlotTable, t: SlotTable, t': SlotTable, pred: Pred, done: seq<RID>, f: Str, e: Expression)
    requires UpdatedSome(t, t', done, f, e) && done == AllMatches(t, pred) && forall r :: Holds(t, r) == Holds(t0, r)
    ensures Updated(t0, t', pred, f, e)
  {
    AllMatchesMeaning(t, pred);
  }

  /** One round of the loop of `execute_delete`. */
  method DeleteOne(us: SelectScan, ghost t: SlotTable, ghost done: seq<RID>) returns (more: bool)
    requires Working(us, t, done, true) && DeletedSome(t, us.s.Contents(), done)
    modifies us.s, us.s.file
    ensures Working(us, t, done + [old(us.s.Here())], more)
    ensures DeletedSome(t, us.s.Contents(), done + [old(us.s.Here())])
  {
    hide FileOk, TableOf, Satisfied, UsedFrom, Matches, AllMatches;
    ghost var now, r := us.s.Contents(), us.s.Here();
    us.s.DeleteRecord();
    MatchesSame(now, us.s.Contents(), us.pred, us.s.Rest());
    more := us.Next();
  }

  /** Every record that satisfies the predicate is deleted, every other one stays; the result is their number. */
  method ExecuteDelete(file: TableFile, layout: Layout, pred: Pred) returns (count: nat)
    requires FileOk(layout, file.blocksize, file.blocks) && forall t | t in pred :: t.AppliesTo(layout.schema.names)
    modifies file
    ensures FileOk(layout, file.blocksize, file.blocks)
    ensures var t := TableOf(layout, file.blocksize, old(file.blocks));
            && Deleted(t, TableOf(layout, file.blocksize, file.blocks), pred)
            && KeepsDiffering(t, TableOf(layout, file.blocksize, file.blocks), pred)
            && count == |AllMatches(t, pred)|
  {
    RecordsDefined(file.blocks, layout, file.blocksize, pred);
    hide PredDefined, KeepsDiffering;
    hide FileOk, TableOf, Satisfied, UsedFrom, Matches, AllMatches, Deleted, DeletedSome;
    ghost var t0 := TableOf(layout, file.blocksize, file.blocks);
    var us := OpenSelect(file, layout, pred);
    ghost var t := us.s.Contents();
    ghost var done: seq<RID> := [];
    count := 0;
    NoneDeleted(t);
    var more := us.Next();
    while more
      invariant count == |done| && Working(us, t, done, more) && DeletedSome(t, us.s.Contents(), done)
      decreases |AllMatches(t, pred)| - |done|, more
    {
      ghost var r := us.s.Here();
      more := DeleteOne(us, t, done);
      done := done + [r];
      count := count + 1;
    }
    AllDeleted(t0, t, us.s.Contents(), pred, done);
    DeletedMeaning(t0, us.s.Contents(), pred);
  }

  lemma NoneDeleted(t: SlotTable)
    ensures DeletedSome(t, t, [])
  {}

  /** The new value of every matching record is of the type of the field, and no string is too long. */
  ghost predicate NewValuesFit(t: SlotTable, pred: Pred, i: FieldInfo, e: Expression) {
    forall r | MatchedBy(t, pred, r) ::
      var v := e.Evaluate(Holds(t, r).value); v.Some? && i.Fits(v.value)
  }

  lemma NotYet(t: SlotTable, pred: Pred, done: seq<RID>, r: RID, rest: seq<RID>)
    requires done + ([r] + rest) == AllMatches(t, pred)
    ensures r !in done && MatchedBy(t, pred, r)
  {
    AllMatchesMeaning(t, pred);
    var all := AllMatches(t, pred);
    assert all[|done|] == r && r in all;
    assert forall k | 0 <= k < |done| :: all[k] == done[k];
  }

  lemma UpdatedMore(t: SlotTable, now: SlotTable, done: seq<RID>, r: RID, f: Str, e: Expression)
    requires UpdatedSome(t, now, done, f, e) && r !in done && Holds(t, r).Some? && IsSlotOf(now, r)
    ensures Holds(now, r) == Holds(t, r)
    ensures var s := SlotOf(now, r);
            forall v | e.Evaluate(s.row) == Some(v) ::
              UpdatedSome(t, Put(now, r, Slot(s.flag, s.row[f := v])), done + [r], f, e)
  {}

  /** One round of the loop of `execute_modify`. */
  method ModifyOne(us: SelectScan, f: Str, e: Expression, ghost t: SlotTable, ghost done: seq<RID>) returns (more: bool)
    requires Working(us, t, done, true) && UpdatedSome(t, us.s.Contents(), done, f, e)
    requires f in us.s.layout.schema.names && f in us.s.layout.schema.info && e.AppliesTo(us.s.layout.schema.names)
    requires NewValuesFit(t, us.pred, us.s.layout.schema.info[f], e)
    modifies us.s, us.s.file
    ensures Working(us, t, done + [old(us.s.Here())], more)
    ensures UpdatedSome(t, us.s.Contents(), done + [old(us.s.Here())], f, e)
  {
    hide FileOk, TableOf, Satisfied, UsedFrom, Matches, AllMatches, UpdatedSome;
    ghost var now, r := us.s.Contents(), us.s.Here();
    NotYet(t, us.pred, done, r, us.ToCome());
    UpdatedMore(t, now, done, r, f, e);
    var val := us.Evaluate(e);
    us.s.SetVal(f, val);
    MatchesSame(now, us.s.Contents(), us.pred, us.s.Rest());
    more := us.Next();
  }

  lemma NoneUpdated(t: SlotTable, f: Str, e: Expression)
    ensures UpdatedSome(t, t, [], f, e)
  {}

  /**
   Every record that satisfies the predicate gets the new value, computed from its own old values, every other one
   stays; the result is their number. A record that matches again with its new value is not visited again.
   */
  method ExecuteModify(file: TableFile, layout: Layout, pred: Pred, f: Str, e: Expression) returns (count: nat)
    requires FileOk(layout, file.blocksize, file.blocks) && forall t | t in pred :: t.AppliesTo(layout.schema.names)
    requires f in layout.schema.names && f in layout.schema.info && e.AppliesTo(layout.schema.names)
    requires NewValuesFit(TableOf(layout, file.blocksize, file.blocks), pred, layout.schema.info[f], e)
    modifies file
    ensures FileOk(layout, file.blocksize, file.blocks)
    ensures var t := TableOf(layout, file.blocksize, old(file.blocks));
            && Updated(t, TableOf(layout, file.blocksize, file.blocks), pred, f, e)
            && SetsAgreeing(t, TableOf(layout, file.blocksize, file.blocks), pred, f, e)
            && count == |AllMatches(t, pred)|
  {
    hide SetsAgreeing;
    hide FileOk, TableOf, Satisfied, UsedFrom, Matches, AllMatches, Updated, UpdatedSome;
    ghost var t0 := TableOf(layout, file.blocksize, file.blocks);
    var us := OpenSelect(file, layout, pred);
    ghost var t := us.s.Contents();
    ghost var done: seq<RID> := [];
    count := 0;
    NoneUpdated(t, f, e);
    var more := us.Next();
    while more
      invariant count == |done| && Working(us, t, done, more) && UpdatedSome(t, us.s.Contents(), done, f, e)
      decreases |AllMatches(t, pred)| - |done|, more
    {
      ghost var r := us.s.Here();
      more := ModifyOne(us, f, e, t, done);
      done := done + [r];
      count := count + 1;
    }
    AllUpdated(t0, t, us.s.Contents(), pred, done, f, e);
    UpdatedMeaning(t0, us.s.Contents(), pred, f, layout.schema.info[f], e);
  }
}

/**
 `TableMgr`: the catalog tables, and the layouts that are read back from them.
 */
module Catalog {
  import opened Types
  import opened Sequences
  import opened Ordering
  import opened Layouts
  import opened Records
  import opened TableScans

  // ---------------------------------------------------------------------------------------------
  // Tables that are only appended to
  // ---------------------------------------------------------------------------------------------

  function RowsAt(t: SlotTable, rids: seq<RID>): seq<Row>
    requires forall r | r in rids :: IsSlotOf(t, r)
  {
    if rids == [] then [] else RowsAt(t, rids[..|rids| - 1]) + [SlotOf(t, rids[|rids| - 1]).row]
  }

  lemma UsedAreSlots(t: SlotTable)
    ensures forall r | r in UsedFrom(t, 0, 0) :: IsSlotOf(t, r)
  {
    UsedMembers(t, 0, 0);
  }

  /** The records of a table in the order of the file. */
  function RowsOf(t: SlotTable): seq<Row> {
    UsedAreSlots(t);
    RowsAt(t, UsedFrom(t, 0, 0))
  }

  /** The records fill the file from its beginning. */
  ghost predicate Packed(t: SlotTable) {
    && (forall r | IsSlotOf(t, r) :: SlotOf(t, r).flag == EMPTY || SlotOf(t, r).flag == USED)
    && forall q, r | IsSlotOf(t, q) && Ahead(q, r) && Holds(t, r).Some? :: Holds(t, q).Some?
  }

  ghost predicate Ascends(rids: seq<RID>) {
    forall i, j | 0 <= i < j < |rids| :: Ahead(rids[i], rids[j])
  }

  lemma SomeMember(b: seq<RID>)
    requires b != []
    ensures exists r :: r in b
  {
    assert b[0] in b;
  }

  /** Two ascending lists of the same identifiers are the same. */
  lemma {:induction false} AscendingUnique(a: seq<RID>, b: seq<RID>)
    requires Ascends(a) && Ascends(b) && forall r :: r in a <==> r in b
    ensures a == b
  {
    if a == [] {
      if b != [] {
        SomeMember(b);
        assert false;
      }
    } else {
      var m, n := |a| - 1, |b| - 1;
      assert a[m] in b;
      assert b[n] in a;
      assert a[m] == b[n];
      forall r
        ensures r in a[..m] <==> r in b[..n]
      {
        if r in a[..m] {
          var k :| 0 <= k < m && a[k] == r;
          assert Ahead(a[k], a[m]) && r in b;
        }
        if r in b[..n] {
          var k :| 0 <= k < n && b[k] == r;
          assert Ahead(b[k], b[n]) && r in a;
        }
      }
      AscendingUnique(a[..m], b[..n]);
      assert a == a[..m] + [a[m]] && b == b[..n] + [b[n]];
    }
  }

  lemma {:induction false} RowsSame(t: SlotTable, t': SlotTable, rids: seq<RID>)
    requires forall r | r in rids :: IsSlotOf(t, r) && IsSlotOf(t', r) && SlotOf(t, r).row == SlotOf(t', r).row
    ensures RowsAt(t, rids) == RowsAt(t', rids)
  {
    if rids != [] {
      RowsSame(t, t', rids[..|rids| - 1]);
    }
  }

  /** A slot is taken behind all records. */
  ghost predicate FirstFree(t: SlotTable, r: RID) {
    IsSlotOf(t, r) && SlotOf(t, r).flag == EMPTY && forall q | IsSlotOf(t, q) && Ahead(q, r) :: Holds(t, q).Some?
  }

  lemma PutSlots(t: SlotTable, r: RID, x: Slot)
    requires IsSlotOf(t, r)
    ensures forall q :: IsSlotOf(Put(t, r, x), q) <==> IsSlotOf(t, q)
    ensures forall q | IsSlotOf(t, q) :: SlotOf(Put(t, r, x), q) == if q == r then x else SlotOf(t, q)
    ensures forall q :: Holds(Put(t, r, x), q) ==
                        if q == r && x.flag == USED then Some(x.row) else if q == r then None else Holds(t, q)
  {}

  lemma PackedPut(t: SlotTable, r: RID, row: Row)
    requires Packed(t) && (FirstFree(t, r) || Holds(t, r).Some?)
    ensures IsSlotOf(t, r) && Packed(Put(t, r, Slot(USED, row)))
  {
    PutSlots(t, r, Slot(USED, row));
    var t' := Put(t, r, Slot(USED, row));
    hide Put;
    forall q, r' | IsSlotOf(t', q) && Ahead(q, r') && Holds(t', r').Some?
      ensures Holds(t', q).Some?
    {
      assert r' != r ==> Holds(t, r').Some?;
    }
  }

  lemma RowsSnoc(t: SlotTable, rids: seq<RID>, r: RID)
    requires (forall q | q in rids :: IsSlotOf(t, q)) && IsSlotOf(t, r)
    ensures RowsAt(t, rids + [r]) == RowsAt(t, rids) + [SlotOf(t, r).row]
  {
    assert (rids + [r])[..|rids|] == rids;
  }

  /** Nothing comes behind `r`. */
  ghost predicate IsLast(t: SlotTable, r: RID) {
    forall q | Holds(t, q).Some? :: q == r || Ahead(q, r)
  }

  lemma UsedOfFirstFree(t: SlotTable, r: RID, row: Row)
    requires Packed(t) && FirstFree(t, r)
    ensures UsedFrom(Put(t, r, Slot(USED, row)), 0, 0) == UsedFrom(t, 0, 0) + [r]
    ensures IsLast(Put(t, r, Slot(USED, row)), r)
  {
    var t' := Put(t, r, Slot(USED, row));
    var old' := UsedFrom(t, 0, 0);
    PutSlots(t, r, Slot(USED, row));
    UsedMembers(t, 0, 0);
    UsedMembers(t', 0, 0);
    hide Put, UsedFrom;
    assert Holds(t, r).None?;
    forall q | Holds(t, q).Some?
      ensures Ahead(q, r)
    {
      assert q != r && !Ahead(r, q);
    }
    assert forall k | 0 <= k < |old'| :: old'[k] in old';
    AscendingUnique(UsedFrom(t', 0, 0), old' + [r]);
  }

  /** Taking the first free slot puts one record behind the others. */
  lemma Appended(t: SlotTable, r: RID, row: Row)
    requires Packed(t) && FirstFree(t, r)
    ensures var t' := Put(t, r, Slot(USED, row));
            Packed(t') && RowsOf(t') == RowsOf(t) + [row] && Holds(t', r) == Some(row) && IsLast(t', r)
  {
    var t' := Put(t, r, Slot(USED, row));
    UsedOfFirstFree(t, r, row);
    PackedPut(t, r, row);
    PutSlots(t, r, Slot(USED, row));
    UsedAreSlots(t);
    UsedAreSlots(t');
    UsedMembers(t, 0, 0);
    hide Put, UsedFrom, Packed, IsLast;
    RowsSnoc(t', UsedFrom(t, 0, 0), r);
    RowsSame(t, t', UsedFrom(t, 0, 0));
  }

  /** The last one of the used slots. */
  lemma LastUsed(t: SlotTable, r: RID)
    requires Holds(t, r).Some? && IsLast(t, r)
    ensures var rids := UsedFrom(t, 0, 0);
            rids != [] && rids[|rids| - 1] == r && r !in rids[..|rids| - 1]
  {
    var rids := UsedFrom(t, 0, 0);
    UsedMembers(t, 0, 0);
    hide UsedFrom;
    assert r in rids;
    var n := |rids| - 1;
    var k :| 0 <= k < |rids| && rids[k] == r;
    assert rids[n] in rids;
    forall m | 0 <= m < n
      ensures rids[m] != r
    {
      assert Ahead(rids[m], rids[n]);
    }
  }

  /** The last record changes. */
  lemma LastChanged(t: SlotTable, r: RID, rows: seq<Row>, row: Row, row': Row)
    requires Packed(t) && Holds(t, r) == Some(row) && RowsOf(t) == rows + [row] && IsLast(t, r)
    ensures var t' := Put(t, r, Slot(USED, row'));
            Packed(t') && RowsOf(t') == rows + [row'] && IsLast(t', r) && Holds(t', r) == Some(row')
  {
    var t' := Put(t, r, Slot(USED, row'));
    var rids := UsedFrom(t, 0, 0);
    PackedPut(t, r, row');
    PutSlots(t, r, Slot(USED, row'));
    PutBefore(t, r, Slot(USED, row'), 0, 0);
    LastUsed(t, r);
    UsedAreSlots(t);
    hide Put, UsedFrom, Packed;
    var init := rids[..|rids| - 1];
    assert rids == init + [r];
    RowsSnoc(t, init, r);
    RowsSnoc(t', init, r);
    RowsSame(t, t', init);
    assert RowsAt(t, init) == rows by {
      assert RowsAt(t, init) == (rows + [row])[..|rows|];
    }
  }

  // ---------------------------------------------------------------------------------------------
  // Appending a row through a scan
  // ---------------------------------------------------------------------------------------------

  /** A scan of a packed table, in front of its first record or on a record. */
  ghost predicate Appending(scan: TableScan, rows: seq<Row>)
    reads scan, scan.file
  {
    && scan.Valid() && Packed(scan.Contents()) && RowsOf(scan.Contents()) == rows
    && (if scan.currentslot.None? then scan.rp.blk == 0 else Holds(scan.Contents(), scan.Here()).Some?)
  }

  /** A new block of empty slots. */
  lemma PackedBlank(t: SlotTable, l: Layout, blocksize: nat)
    requires Packed(t) && l.schema.Complete()
    ensures var t' := t + [BlankBlock(l, blocksize)]; Packed(t') && RowsOf(t') == RowsOf(t)
  {
    var t' := t + [BlankBlock(l, blocksize)];
    forall r
      ensures Holds(t', r) == Holds(t, r)
      ensures IsSlotOf(t', r) ==> SlotOf(t', r).flag == EMPTY || SlotOf(t', r).flag == USED
    {
      if IsSlotOf(t', r) && r.blk < |t| {
        assert SlotOf(t', r) == SlotOf(t, r);
      }
    }
    UsedMembers(t, 0, 0);
    UsedMembers(t', 0, 0);
    hide UsedFrom, BlankBlock;
    AscendingUnique(UsedFrom(t', 0, 0), UsedFrom(t, 0, 0));
    RowsSame(t, t', UsedFrom(t, 0, 0));
  }

  /** What insertion finds is the first free slot of the whole table. */
  lemma FindsFirstFree(t: SlotTable, t0: SlotTable, l: Layout, blocksize: nat, b: nat, s: nat, here: Option<RID>,
                       r: RID)
    requires l.schema.Complete() && Packed(t0) && (t == t0 || t == t0 + [BlankBlock(l, blocksize)])
    requires IsSlotOf(t, r) && SlotOf(t, r).flag == EMPTY && From(r, b, s)
    requires forall q | From(q, b, s) && Ahead(q, r) && IsSlotOf(t, q) :: SlotOf(t, q).flag != EMPTY
    requires match here
             case None => b == 0 && s == 0
             case Some(h) => Holds(t0, h).Some? && b == h.blk && s == h.slot + 1
    ensures Packed(t) && RowsOf(t) == RowsOf(t0) && FirstFree(t, r)
  {
    if t != t0 {
      PackedBlank(t0, l, blocksize);
    }
    assert here.Some? ==> Holds(t, here.value).Some?;
    forall q | IsSlotOf(t, q) && Ahead(q, r)
      ensures Holds(t, q).Some?
    {
      if !From(q, b, s) {
        assert q == here.value || Ahead(q, here.value);
      }
    }
  }

  /** The scan is on the last record, which is `row`. */
  ghost predicate OnLast(scan: TableScan, rows: seq<Row>, row: Row)
    reads scan, scan.file
  {
    && scan.OnSlot() && Packed(scan.Contents()) && RowsOf(scan.Contents()) == rows + [row]
    && Holds(scan.Contents(), scan.Here()) == Some(row) && IsLast(scan.Contents(), scan.Here())
  }

  method InsertLast(scan: TableScan, ghost rows: seq<Row>) returns (ghost row: Row)
    requires Appending(scan, rows)
    modifies scan, scan.file
    ensures OnLast(scan, rows, row) && row.Keys == set f | f in scan.layout.schema.names
  {
    hide Packed, RowsOf, FirstFree, IsLast, FileOk, TableOf;
    ghost var t0, b, s := scan.Contents(), scan.rp.blk, scan.NextSlot();
    ghost var here := if scan.currentslot.Some? then Some(scan.Here()) else None;
    ghost var grown := scan.Insert();
    CompleteSchema(scan);
    ghost var t := t0 + if grown then [BlankBlock(scan.layout, scan.file.blocksize)] else [];
    ghost var r := scan.Here();
    FindsFirstFree(t, t0, scan.layout, scan.file.blocksize, b, s, here, r);
    row := SlotOf(t, r).row;
    Appended(t, r, row);
    PutSlots(t, r, Slot(USED, row));
    scan.RowHere(r);
  }

  lemma CompleteSchema(scan: TableScan)
    requires scan.Valid()
    ensures scan.layout.schema.Complete()
  {}

  /** Sets one field of the last record. */
  method SetLast(scan: TableScan, ghost rows: seq<Row>, ghost row: Row, f: Str, v: Value)
    requires OnLast(scan, rows, row)
    requires f in scan.layout.schema.names && f in scan.layout.schema.info && scan.layout.schema.info[f].Fits(v)
    modifies scan.file
    ensures OnLast(scan, rows, row[f := v])
  {
    hide Packed, RowsOf, FirstFree, IsLast, FileOk, TableOf;
    ghost var t, r := scan.Contents(), scan.Here();
    scan.SetVal(f, v);
    LastChanged(t, r, rows, row, row[f := v]);
  }

  lemma SameRow(a: Row, b: Row, names: seq<Str>)
    requires a.Keys == b.Keys == set f | f in names
    requires forall m | 0 <= m < |names| :: names[m] in a && a[names[m]] == b[names[m]]
    ensures a == b
  {}

  /** Sets the fields of the last record in the order of the schema. */
  method SetFields(scan: TableScan, row: Row, ghost was: Row, ghost rows: seq<Row>)
    requires OnLast(scan, rows, was) && was.Keys == row.Keys == set f | f in scan.layout.schema.names
    requires forall f | f in scan.layout.schema.names ::
               f in scan.layout.schema.info && scan.layout.schema.info[f].Fits(row[f])
    modifies scan.file
    ensures OnLast(scan, rows, row)
  {
    hide OnLast;
    var names := scan.layout.schema.names;
    ghost var now := was;
    for k := 0 to |names|
      invariant OnLast(scan, rows, now) && now.Keys == row.Keys
      invariant forall m | 0 <= m < k :: names[m] in row && now[names[m]] == row[names[m]]
    {
      assert names[k] in row;
      SetLast(scan, rows, now, names[k], row[names[k]]);
      now := now[names[k] := row[names[k]]];
    }
    SameRow(now, row, names);
  }

  /** A new record with the given values. */
  method AppendRow(scan: TableScan, row: Row, ghost rows: seq<Row>)
    requires Appending(scan, rows) && row.Keys == set f | f in scan.layout.schema.names
    requires forall f | f in scan.layout.schema.names ::
               f in scan.layout.schema.info && scan.layout.schema.info[f].Fits(row[f])
    modifies scan, scan.file
    ensures Appending(scan, rows + [row])
  {
    hide Packed, RowsOf, FirstFree, IsLast, FileOk, TableOf;
    ghost var was := InsertLast(scan, rows);
    SetFields(scan, row, was, rows);
  }

  // ---------------------------------------------------------------------------------------------
  // The catalog tables
  // ---------------------------------------------------------------------------------------------

  const MAX_NAME: nat := 16

  const TBLNAME: Str := [116, 98, 108, 110, 97, 109, 101]
  const FLDNAME: Str := [102, 108, 100, 110, 97, 109, 101]
  const SLOTSIZE: Str := [115, 108, 111, 116, 115, 105, 122, 101]
  const TYPE: Str := [116, 121, 112, 101]
  const LENGTH: Str := [108, 101, 110, 103, 116, 104]
  const OFFSET: Str := [111, 102, 102, 115, 101, 116]

  const TBLCAT: Str := [116, 98, 108, 99, 97, 116]
  const FLDCAT: Str := [102, 108, 100, 99, 97, 116]

  function TcatSchema(): Fields {
    Fields([], map[]).With(TBLNAME, FieldInfo(VARCHAR, MAX_NAME)).With(SLOTSIZE, FieldInfo(INTEGER, 0))
  }

  function FcatSchema(): Fields {
    Fields([], map[])
    .With(TBLNAME, FieldInfo(VARCHAR, MAX_NAME)).With(FLDNAME, FieldInfo(VARCHAR, MAX_NAME))
    .With(TYPE, FieldInfo(INTEGER, 0)).With(LENGTH, FieldInfo(INTEGER, 0)).With(OFFSET, FieldInfo(INTEGER, 0))
  }

  lemma CatalogFields()
    ensures TcatSchema().Complete() && TcatSchema().names == [TBLNAME, SLOTSIZE]
    ensures FcatSchema().Complete() && FcatSchema().names == [TBLNAME, FLDNAME, TYPE, LENGTH, OFFSET]
  {}

  /** The names and types of the fields of the catalog tables. */
  lemma CatalogSpelling()
    ensures TBLCAT == Ascii("tblcat") && FLDCAT == Ascii("fldcat")
    ensures TcatSchema().names == [Ascii("tblname"), Ascii("slotsize")]
    ensures FcatSchema().names == [Ascii("tblname"), Ascii("fldname"), Ascii("type"), Ascii("length"), Ascii("offset")]
    ensures forall f | f in TcatSchema().names ::
              TcatSchema().info[f] == if f == TBLNAME then FieldInfo(VARCHAR, 16) else FieldInfo(INTEGER, 0)
    ensures forall f | f in FcatSchema().names ::
              FcatSchema().info[f] ==
                if f == TBLNAME || f == FLDNAME then FieldInfo(VARCHAR, 16) else FieldInfo(INTEGER, 0)
    ensures forall name, f, i, offset ::
              FieldRow(name, f, i, offset)[TYPE] == IntVal(if i.kind == INTEGER then 4 else 12)
  {
    CatalogFields();
    TableWords();
    FieldWords();
    hide Ascii;
  }

  lemma TableWords()
    ensures TBLCAT == Ascii("tblcat") && FLDCAT == Ascii("fldcat")
    ensures TBLNAME == Ascii("tblname") && SLOTSIZE == Ascii("slotsize")
  {}

  lemma FieldWords()
    ensures FLDNAME == Ascii("fldname") && TYPE == Ascii("type") && LENGTH == Ascii("length")
    ensures OFFSET == Ascii("offset")
  {}

  function TypeCode(kind: FieldType): int32 {
    if kind == INTEGER then 4 else 12
  }

  /** The record of a table in `tblcat`. */
  function TableRow(name: Str, slotsize: nat): Row {
    map[TBLNAME := StrVal(name), SLOTSIZE := IntVal(ToInt32(slotsize))]
  }

  /** The record of a field in `fldcat`. */
  function FieldRow(name: Str, f: Str, i: FieldInfo, offset: nat): Row {
    map[TBLNAME := StrVal(name), FLDNAME := StrVal(f), TYPE := IntVal(TypeCode(i.kind)),
        LENGTH := IntVal(ToInt32(i.length)), OFFSET := IntVal(ToInt32(offset))]
  }

  function FieldRows(name: Str, l: Layout, names: seq<Str>): seq<Row>
    requires forall f | f in names :: f in l.schema.info && f in l.offsets
  {
    if names == [] then []
    else
      var n := |names| - 1;
      FieldRows(name, l, names[..n]) + [FieldRow(name, names[n], l.schema.info[names[n]], l.offsets[names[n]])]
  }

  datatype TableDef = TableDef(name: Str, schema: Fields)

  /** Names of at most 16 bytes, no field twice, and sizes that an int32 can hold. */
  ghost predicate Registrable(d: TableDef) {
    && |d.name| <= MAX_NAME
    && d.schema.info.Keys == (set f | f in d.schema.names)
    && Distinct(d.schema.names)
    && (forall f | f in d.schema.names :: |f| <= MAX_NAME && d.schema.info[f].length < 0x8000_0000)
    && SizeOf(d.schema.names, d.schema.info) < 0x8000_0000
  }

  lemma RegistrableLayout(d: TableDef)
    requires Registrable(d)
    ensures d.schema.Complete() && Good(LayoutOf(d.schema))
    ensures forall f | f in d.schema.names :: f in LayoutOf(d.schema).offsets
  {
    LayoutGood(d.schema);
  }

  function TableRows(defs: seq<TableDef>): seq<Row>
    requires forall d | d in defs :: d.schema.Complete()
  {
    if defs == [] then []
    else
      var d := defs[|defs| - 1];
      TableRows(defs[..|defs| - 1]) + [TableRow(d.name, LayoutOf(d.schema).slotsize)]
  }

  ghost function AllFieldRows(defs: seq<TableDef>): seq<Row>
    requires forall d | d in defs :: Registrable(d)
  {
    if defs == [] then []
    else
      var d := defs[|defs| - 1];
      RegistrableLayout(d);
      AllFieldRows(defs[..|defs| - 1]) + FieldRows(d.name, LayoutOf(d.schema), d.schema.names)
  }

  // ---------------------------------------------------------------------------------------------
  // Reading a layout back
  // ---------------------------------------------------------------------------------------------

  /** The slot size in the first record of the table. */
  function FindSize(rows: seq<Row>, name: Str): Option<nat> {
    if rows == [] then None
    else if IsRowOf(rows[0], name) && SLOTSIZE in rows[0] && rows[0][SLOTSIZE].IntVal? then
        Some(ToSize(rows[0][SLOTSIZE].i))
    else FindSize(rows[1..], name)
  }

  predicate IsRowOf(r: Row, name: Str) {
    TBLNAME in r && r[TBLNAME] == StrVal(name)
  }

  predicate IsFieldRow(r: Row) {
    && r.Keys == {TBLNAME, FLDNAME, TYPE, LENGTH, OFFSET}
    && r[TBLNAME].StrVal? && r[FLDNAME].StrVal? && r[TYPE].IntVal? && r[LENGTH].IntVal? && r[OFFSET].IntVal?
  }

  /** What one record adds to a schema and offsets; nothing if its type is unknown. */
  function Take(r: Row, name: Str, sch: Fields, offsets: map<Str, nat>): Option<(Fields, map<Str, nat>)> {
    if !(IsFieldRow(r) && IsRowOf(r, name)) then Some((sch, offsets))
    else if r[TYPE].i != 4 && r[TYPE].i != 12 then None
    else
      var f := r[FLDNAME].s;
      Some((sch.With(f, FieldInfo(if r[TYPE].i == 4 then INTEGER else VARCHAR, ToSize(r[LENGTH].i))),
            offsets[f := ToSize(r[OFFSET].i)]))
  }

  /** The schema and offsets that the records of a table give. */
  function Gather(rows: seq<Row>, name: Str): Option<(Fields, map<Str, nat>)> {
    if rows == [] then Some((Fields([], map[]), map[]))
    else
      match Gather(rows[..|rows| - 1], name)
      case None => None
      case Some((sch, offsets)) => Take(rows[|rows| - 1], name, sch, offsets)
  }

  function LayoutFrom(trows: seq<Row>, frows: seq<Row>, name: Str): Option<Layout> {
    match (FindSize(trows, name), Gather(frows, name))
    case (Some(size), Some((sch, offsets))) => Some(Layout(sch, offsets, size))
    case _ => None
  }

  lemma {:induction false} GatherAppend(a: seq<Row>, b: seq<Row>, name: Str)
    requires forall r | r in b :: !IsRowOf(r, name)
    ensures Gather(a + b, name) == Gather(a, name)
  {
    if b == [] {
      assert a + b == a;
    } else {
      var n := |b| - 1;
      GatherAppend(a, b[..n], name);
      assert (a + b)[..|a + b| - 1] == a + b[..n];
    }
  }

  lemma {:induction false} GatherNone(a: seq<Row>, name: Str)
    requires forall r | r in a :: !IsRowOf(r, name)
    ensures Gather(a, name) == Some((Fields([], map[]), map[]))
  {
    GatherAppend([], a, name);
    assert [] + a == a;
  }

  /** The casts of sizes below two to the 31st lose nothing. */
  lemma SmallSizes(n: nat)
    requires n < 0x8000_0000
    ensures ToSize(ToInt32(n)) == n
  {}

  lemma {:induction false} FieldRowsOf(name: Str, l: Layout, names: seq<Str>)
    requires forall f | f in names :: f in l.schema.info && f in l.offsets
    ensures forall r | r in FieldRows(name, l, names) :: IsFieldRow(r) && IsRowOf(r, name)
  {
    if names != [] {
      FieldRowsOf(name, l, names[..|names| - 1]);
    }
  }

  /** A schema restricted to the first of its names. */
  function Restricted(info: map<Str, FieldInfo>, names: seq<Str>): map<Str, FieldInfo> {
    map f | f in names && f in info :: info[f]
  }

  lemma {:induction false} SizesGrow(names: seq<Str>, info: map<Str, FieldInfo>, k: nat)
    requires (forall f | f in names :: f in info) && k <= |names|
    ensures SizeOf(names[..k], info) <= SizeOf(names, info)
    decreases |names| - k
  {
    if k == |names| {
      assert names[..k] == names;
    } else {
      SizesGrow(names, info, k + 1);
      assert names[..k + 1][..k] == names[..k];
    }
  }

  /** One more record of a field gives one more field. */
  lemma GatherOne(rows: seq<Row>, name: Str, f: Str, i: FieldInfo, offset: nat, sch: Fields, offsets: map<Str, nat>)
    requires i.length < 0x8000_0000 && offset < 0x8000_0000 && (i.kind == INTEGER || i.kind == VARCHAR)
    requires Gather(rows, name) == Some((sch, offsets))
    ensures Gather(rows + [FieldRow(name, f, i, offset)], name) == Some((sch.With(f, i), offsets[f := offset]))
  {
    var r := FieldRow(name, f, i, offset);
    assert (rows + [r])[..|rows|] == rows;
    assert IsFieldRow(r) && IsRowOf(r, name);
    SmallSizes(i.length);
    SmallSizes(offset);
  }

  lemma FieldRowsSnoc(name: Str, l: Layout, names: seq<Str>)
    requires names != [] && forall f | f in names :: f in l.schema.info && f in l.offsets
    ensures var n := |names| - 1; var f := names[n];
            FieldRows(name, l, names) ==
              FieldRows(name, l, names[..n]) + [FieldRow(name, f, l.schema.info[f], l.offsets[f])]
  {}

  /** The records of the first `k` fields of a table give these fields back. */
  ghost predicate GivesBack(before: seq<Row>, d: TableDef, k: nat)
    requires Registrable(d) && k <= |d.schema.names|
  {
    RegistrableLayout(d);
    var names := d.schema.names[..k];
    Gather(before + FieldRows(d.name, LayoutOf(d.schema), names), d.name) ==
    Some((Fields(names, Restricted(d.schema.info, names)), OffsetsOf(names, d.schema.info)))
  }

  lemma RestrictedSnoc(info: map<Str, FieldInfo>, init: seq<Str>, f: Str)
    requires f in info
    ensures Restricted(info, init + [f]) == Restricted(info, init)[f := info[f]]
  {}

  lemma OffsetsSnoc(info: map<Str, FieldInfo>, init: seq<Str>, f: Str)
    requires f in info && forall g | g in init :: g in info
    ensures OffsetsOf(init + [f], info) == OffsetsOf(init, info)[f := SizeOf(init, info)]
  {
    assert (init + [f])[..|init|] == init;
  }

  lemma SmallField(d: TableDef, k: nat)
    requires Registrable(d) && k < |d.schema.names|
    ensures var f := d.schema.names[k]; var l := LayoutOf(d.schema);
            && f in d.schema.info && f in l.offsets && d.schema.info[f].length < 0x8000_0000
            && l.offsets[f] == SizeOf(d.schema.names[..k], d.schema.info) < 0x8000_0000
  {
    SizesGrow(d.schema.names, d.schema.info, k);
    OffsetFixed(d, k);
  }

  lemma GatherMore(before: seq<Row>, name: Str, l: Layout, init: seq<Str>, f: Str, sch: Fields, offsets: map<Str, nat>)
    requires f in l.schema.info && f in l.offsets && forall g | g in init :: g in l.schema.info && g in l.offsets
    requires l.schema.info[f].length < 0x8000_0000 && l.offsets[f] < 0x8000_0000
    requires Gather(before + FieldRows(name, l, init), name) == Some((sch, offsets))
    ensures Gather(before + FieldRows(name, l, init + [f]), name) ==
            Some((sch.With(f, l.schema.info[f]), offsets[f := l.offsets[f]]))
  {
    FieldRowsSnoc(name, l, init + [f]);
    hide Gather, FieldRows, FieldRow;
    assert (init + [f])[..|init|] == init;
    var rows, last := before + FieldRows(name, l, init), FieldRow(name, f, l.schema.info[f], l.offsets[f]);
    GatherOne(rows, name, f, l.schema.info[f], l.offsets[f], sch, offsets);
    assert before + FieldRows(name, l, init + [f]) == rows + [last];
  }

  lemma TakeMore(names: seq<Str>, k: nat)
    requires k < |names|
    ensures names[..k + 1] == names[..k] + [names[k]]
  {}

  lemma GatherStep(before: seq<Row>, d: TableDef, k: nat)
    requires Registrable(d) && k < |d.schema.names| && GivesBack(before, d, k)
    ensures GivesBack(before, d, k + 1)
  {
    hide Registrable, Good, Gather, FieldRows, FieldRow, Restricted, OffsetsOf, SizeOf;
    RegistrableLayout(d);
    SmallField(d, k);
    TakeMore(d.schema.names, k);
    var l := LayoutOf(d.schema);
    var info, init, f := d.schema.info, d.schema.names[..k], d.schema.names[k];
    RestrictedSnoc(info, init, f);
    OffsetsSnoc(info, init, f);
    GatherMore(before, d.name, l, init, f, Fields(init, Restricted(info, init)), OffsetsOf(init, info));
  }

  lemma NoneGathered(before: seq<Row>, d: TableDef)
    requires Registrable(d) && forall r | r in before :: !IsRowOf(r, d.name)
    ensures GivesBack(before, d, 0)
  {
    hide Registrable;
    RegistrableLayout(d);
    GatherNone(before, d.name);
    hide Gather, Good, SizeOf;
    assert d.schema.names[..0] == [];
    assert before + [] == before;
  }

  lemma {:induction false} GatherFields(before: seq<Row>, d: TableDef, k: nat)
    requires Registrable(d) && k <= |d.schema.names| && forall r | r in before :: !IsRowOf(r, d.name)
    ensures GivesBack(before, d, k)
  {
    hide Registrable, GivesBack, IsRowOf;
    if k == 0 {
      NoneGathered(before, d);
    } else {
      GatherFields(before, d, k - 1);
      GatherStep(before, d, k - 1);
    }
  }

  /** A field that comes once has the offset at which it was put. */
  lemma {:induction false} OffsetOnce(names: seq<Str>, info: map<Str, FieldInfo>, k: nat)
    requires (forall f | f in names :: f in info) && k < |names|
    requires Distinct(names)
    ensures names[k] in OffsetsOf(names, info) && OffsetsOf(names, info)[names[k]] == SizeOf(names[..k], info)
  {
    var n := |names| - 1;
    if k < n {
      OffsetOnce(names[..n], info, k);
      assert names[..n][..k] == names[..k];
    }
  }

  lemma OffsetFixed(d: TableDef, k: nat)
    requires Registrable(d) && k < |d.schema.names|
    ensures d.schema.Complete() && d.schema.names[k] in LayoutOf(d.schema).offsets
    ensures LayoutOf(d.schema).offsets[d.schema.names[k]] == SizeOf(d.schema.names[..k], d.schema.info)
  {
    OffsetOnce(d.schema.names, d.schema.info, k);
  }

  // ---------------------------------------------------------------------------------------------
  // Any number of tables
  // ---------------------------------------------------------------------------------------------

  /** Every definition can be registered, and no table name comes twice. */
  ghost predicate Catalogued(defs: seq<TableDef>) {
    && (forall d | d in defs :: Registrable(d))
    && forall i, j | 0 <= i < j < |defs| :: defs[i].name != defs[j].name
  }

  lemma CataloguedSchemas(defs: seq<TableDef>)
    requires Catalogued(defs)
    ensures forall d | d in defs :: d.schema.Complete()
  {}

  lemma {:induction false} FindSizeAppend(rows: seq<Row>, r: Row, name: Str)
    ensures FindSize(rows + [r], name) ==
            if FindSize(rows, name).Some? then FindSize(rows, name) else FindSize([r], name)
  {
    if rows == [] {
      assert rows + [r] == [r];
    } else {
      assert (rows + [r])[1..] == rows[1..] + [r];
      FindSizeAppend(rows[1..], r, name);
    }
  }

  lemma OwnSize(d: TableDef, name: Str)
    requires Registrable(d)
    ensures d.schema.Complete()
    ensures FindSize([TableRow(d.name, LayoutOf(d.schema).slotsize)], name) ==
            if d.name == name then Some(LayoutOf(d.schema).slotsize) else None
  {
    var rows := [TableRow(d.name, LayoutOf(d.schema).slotsize)];
    SmallSizes(LayoutOf(d.schema).slotsize);
    assert rows[1..] == [];
  }

  /** The definition with a name, if there is one. */
  function Find(defs: seq<TableDef>, name: Str): Option<TableDef> {
    if defs == [] then None
    else if defs[|defs| - 1].name == name then Some(defs[|defs| - 1])
    else Find(defs[..|defs| - 1], name)
  }

  lemma {:induction false} FindMember(defs: seq<TableDef>, i: nat)
    requires Catalogued(defs) && i < |defs|
    ensures Find(defs, defs[i].name) == Some(defs[i])
  {
    if i < |defs| - 1 {
      FindMember(defs[..|defs| - 1], i);
    }
  }

  lemma CataloguedInit(defs: seq<TableDef>)
    requires Catalogued(defs) && defs != []
    ensures Catalogued(defs[..|defs| - 1]) && Registrable(defs[|defs| - 1])
    ensures Find(defs[..|defs| - 1], defs[|defs| - 1].name) == None
  {
    var n := |defs| - 1;
    assert defs[n] in defs;
    assert forall d | d in defs[..n] :: d in defs;
    FindNone(defs[..n], defs[n].name);
  }

  lemma {:induction false} FindNone(defs: seq<TableDef>, name: Str)
    requires forall k | 0 <= k < |defs| :: defs[k].name != name
    ensures Find(defs, name) == None
  {
    if defs != [] {
      FindNone(defs[..|defs| - 1], name);
    }
  }

  lemma {:induction false} SizeComesBack(defs: seq<TableDef>, name: Str)
    requires Catalogued(defs)
    ensures forall d | d in defs :: d.schema.Complete()
    ensures Find(defs, name).Some? ==> Find(defs, name).value.schema.Complete()
    ensures FindSize(TableRows(defs), name) ==
            match Find(defs, name)
            case Some(d) => Some(LayoutOf(d.schema).slotsize)
            case None => None
  {
    CataloguedSchemas(defs);
    if defs != [] {
      var d := defs[|defs| - 1];
      CataloguedInit(defs);
      SizeComesBack(defs[..|defs| - 1], name);
      OwnSize(d, name);
      FindSizeAppend(TableRows(defs[..|defs| - 1]), TableRow(d.name, LayoutOf(d.schema).slotsize), name);
    }
  }

  lemma {:induction false} NoRowsOf(defs: seq<TableDef>, name: Str)
    requires Catalogued(defs) && Find(defs, name) == None
    ensures forall r | r in AllFieldRows(defs) :: !IsRowOf(r, name)
  {
    if defs != [] {
      var d := defs[|defs| - 1];
      CataloguedInit(defs);
      NoRowsOf(defs[..|defs| - 1], name);
      RegistrableLayout(d);
      FieldRowsOf(d.name, LayoutOf(d.schema), d.schema.names);
    }
  }

  lemma AllGathered(before: seq<Row>, d: TableDef)
    requires Registrable(d) && forall r | r in before :: !IsRowOf(r, d.name)
    ensures d.schema.Complete() && forall f | f in d.schema.names :: f in LayoutOf(d.schema).offsets
    ensures Gather(before + FieldRows(d.name, LayoutOf(d.schema), d.schema.names), d.name) ==
            Some((d.schema, LayoutOf(d.schema).offsets))
  {
    RegistrableLayout(d);
    InfoOfNames(d);
    hide Registrable;
    GatherFields(before, d, |d.schema.names|);
    hide Gather, FieldRows, OffsetsOf, SizeOf, Good;
    assert d.schema.names[..|d.schema.names|] == d.schema.names;
  }

  lemma InfoOfNames(d: TableDef)
    requires Registrable(d)
    ensures Restricted(d.schema.info, d.schema.names) == d.schema.info
  {}

  lemma {:induction false} FieldsComeBack(defs: seq<TableDef>, name: Str)
    requires Catalogued(defs)
    ensures Find(defs, name).Some? ==> Find(defs, name).value.schema.Complete()
    ensures Gather(AllFieldRows(defs), name) ==
            match Find(defs, name)
            case Some(d) => Some((d.schema, LayoutOf(d.schema).offsets))
            case None => Some((Fields([], map[]), map[]))
  {
    if defs != [] {
      var n := |defs| - 1;
      var d := defs[n];
      CataloguedInit(defs);
      RegistrableLayout(d);
      var before, rows := AllFieldRows(defs[..n]), FieldRows(d.name, LayoutOf(d.schema), d.schema.names);
      if d.name == name {
        NoRowsOf(defs[..n], name);
        AllGathered(before, d);
      } else {
        FieldRowsOf(d.name, LayoutOf(d.schema), d.schema.names);
        FieldsComeBack(defs[..n], name);
        GatherAppend(before, rows, name);
      }
    }
  }

  /**
   From the catalog, the layout of every registered table is read back as its schema gives it: the same fields in the
   same order, with the same types, lengths and offsets, and the same slot size. For any other name there is none.
   */
  lemma CatalogRoundTrip(defs: seq<TableDef>, name: Str)
    requires Catalogued(defs)
    ensures forall d | d in defs :: d.schema.Complete()
    ensures Find(defs, name).Some? ==> Find(defs, name).value.schema.Complete()
    ensures LayoutFrom(TableRows(defs), AllFieldRows(defs), name) ==
            match Find(defs, name)
            case Some(d) => Some(LayoutOf(d.schema))
            case None => None
  {
    SizeComesBack(defs, name);
    FieldsComeBack(defs, name);
  }

  // ---------------------------------------------------------------------------------------------
  // TableMgr
  // ---------------------------------------------------------------------------------------------

  /** A file with the given records, one behind the other. */
  ghost predicate Recorded(file: TableFile, l: Layout, rows: seq<Row>)
    reads file
  {
    && FileOk(l, file.blocksize, file.blocks)
    && Packed(TableOf(l, file.blocksize, file.blocks))
    && RowsOf(TableOf(l, file.blocksize, file.blocks)) == rows
  }

  lemma EmptyRecorded(file: TableFile, l: Layout)
    requires Good(l) && l.slotsize <= file.blocksize && file.blocks == []
    ensures Recorded(file, l, [])
  {}

  /** A scan for appending, or for reading from the first record. */
  method OpenCatalog(file: TableFile, l: Layout, ghost rows: seq<Row>) returns (scan: TableScan)
    requires Recorded(file, l, rows)
    modifies file
    ensures fresh(scan) && scan.file == file && scan.layout == l && Appending(scan, rows)
    ensures scan.currentslot.None? && scan.rp.blk == 0 && Recorded(file, l, rows)
  {
    hide Packed, RowsOf;
    ghost var t := TableOf(l, file.blocksize, file.blocks);
    if file.blocks == [] {
      PackedBlank(t, l, file.blocksize);
      assert t + [BlankBlock(l, file.blocksize)] == [BlankBlock(l, file.blocksize)];
    }
    scan := new TableScan(file, l);
  }

  lemma StillRecorded(scan: TableScan, rows: seq<Row>)
    requires Appending(scan, rows)
    ensures Recorded(scan.file, scan.layout, rows)
  {}

  lemma NothingRecorded(tblcat: TableFile, fldcat: TableFile)
    requires TcatSchema().Complete() && FcatSchema().Complete() && tblcat.blocks == [] && fldcat.blocks == []
    requires LayoutOf(TcatSchema()).slotsize <= tblcat.blocksize && LayoutOf(FcatSchema()).slotsize <= fldcat.blocksize
    ensures Catalogued([]) && TableRows([]) == [] && AllFieldRows([]) == []
    ensures Recorded(tblcat, LayoutOf(TcatSchema()), []) && Recorded(fldcat, LayoutOf(FcatSchema()), [])
  {
    LayoutGood(TcatSchema());
    LayoutGood(FcatSchema());
    EmptyRecorded(tblcat, LayoutOf(TcatSchema()));
    EmptyRecorded(fldcat, LayoutOf(FcatSchema()));
  }

  class TableMgr {
    const tblcat: TableFile
    const fldcat: TableFile
    const tcatLayout: Layout
    const fcatLayout: Layout
    ghost var defs: seq<TableDef>        // the tables created so far

    ghost predicate Valid()
      reads this, tblcat, fldcat
    {
      && tblcat != fldcat && Catalogued(defs)
      && TcatSchema().Complete() && tcatLayout == LayoutOf(TcatSchema())
      && FcatSchema().Complete() && fcatLayout == LayoutOf(FcatSchema())
      && (CataloguedSchemas(defs); Recorded(tblcat, tcatLayout, TableRows(defs)))
      && Recorded(fldcat, fcatLayout, AllFieldRows(defs))
    }

    /** Files of an existing database hold what was registered before; those of a new one are empty. */
    constructor (isNew: bool, tblcat: TableFile, fldcat: TableFile, ghost before: seq<TableDef>)
      requires tblcat != fldcat && Catalogued(before)
      requires TcatSchema().Complete() && FcatSchema().Complete()
      requires LayoutOf(TcatSchema()).slotsize <= tblcat.blocksize
               && LayoutOf(FcatSchema()).slotsize <= fldcat.blocksize
      requires isNew ==> before == [] && tblcat.blocks == [] && fldcat.blocks == []
      requires !isNew ==> (CataloguedSchemas(before);
                           && Recorded(tblcat, LayoutOf(TcatSchema()), TableRows(before))
                           && Recorded(fldcat, LayoutOf(FcatSchema()), AllFieldRows(before)))
      modifies tblcat, fldcat
      ensures Valid() && this.tblcat == tblcat && this.fldcat == fldcat
      ensures defs == if isNew then [TableDef(TBLCAT, TcatSchema()), TableDef(FLDCAT, FcatSchema())] else before
    {
      hide Recorded, Registrable, SizeOf, OffsetsOf, Good, FieldRows, FcatSchema, TcatSchema, LayoutOf;
      this.tblcat, this.fldcat := tblcat, fldcat;
      tcatLayout := LayoutOf(TcatSchema());
      fcatLayout := LayoutOf(FcatSchema());
      defs := before;
      new;
      if isNew {
        NothingRecorded(tblcat, fldcat);
        CreateCatalogs();
      }
    }

    /** The catalog tables are the first to be registered, in themselves. */
    method CreateCatalogs()
      requires Valid() && defs == []
      modifies `defs, tblcat, fldcat
      ensures Valid() && defs == [TableDef(TBLCAT, TcatSchema()), TableDef(FLDCAT, FcatSchema())]
    {
      hide Recorded, Registrable, FcatSchema, TcatSchema, LayoutOf, Valid;
      CatalogsRegistrable();
      CreateTable(TBLCAT, TcatSchema());
      CreateTable(FLDCAT, FcatSchema());
    }

    /** A table with a new name. */
    method CreateTable(tblname: Str, sch: Fields)
      requires Valid() && Registrable(TableDef(tblname, sch)) && Find(defs, tblname) == None
      modifies `defs, tblcat, fldcat
      ensures Valid() && defs == old(defs) + [TableDef(tblname, sch)]
    {
      hide Recorded, Registrable, Good;
      var d := TableDef(tblname, sch);
      RegistrableLayout(d);
      CataloguedSnoc(defs, d);
      CataloguedSchemas(defs + [d]);
      RowsOfMore(defs, d);
      var layout := MakeLayout(sch);
      RecordTable(tblcat, tcatLayout, d, TableRows(defs));
      RecordFields(fldcat, fcatLayout, d, layout, AllFieldRows(defs));
      defs := defs + [d];
    }

    /** The layout of a table, or nothing where the source throws because there is no such table. */
    method GetLayout(tblname: Str) returns (layout: Option<Layout>)
      requires Valid()
      modifies tblcat, fldcat
      ensures Valid()
      ensures layout == match Find(defs, tblname)
                        case Some(d) => (CataloguedFind(defs, tblname); Some(LayoutOf(d.schema)))
                        case None => None
    {
      hide Recorded, Registrable, Good, LayoutOf, FcatSchema, TcatSchema, TableRows, AllFieldRows, FindSize, Gather;
      CataloguedSchemas(defs);
      CatalogRoundTrip(defs, tblname);
      var size := ReadSize(tblcat, tcatLayout, tblname, TableRows(defs));
      var fields := ReadFields(fldcat, fcatLayout, tblname, AllFieldRows(defs));
      if fields.None? || size.None? {
        return None;
      }
      layout := Some(Layout(fields.value.0, fields.value.1, size.value));
    }
  }

  lemma CataloguedFind(defs: seq<TableDef>, name: Str)
    requires Catalogued(defs)
    ensures Find(defs, name).Some? ==> Find(defs, name).value.schema.Complete()
  {
    CatalogRoundTrip(defs, name);
  }

  lemma CataloguedSnoc(defs: seq<TableDef>, d: TableDef)
    requires Catalogued(defs) && Registrable(d) && Find(defs, d.name) == None
    ensures Catalogued(defs + [d])
  {
    hide Registrable;
    forall i | 0 <= i < |defs|
      ensures defs[i].name != d.name
    {
      FindMember(defs, i);
    }
  }

  lemma RowsOfMore(defs: seq<TableDef>, d: TableDef)
    requires Catalogued(defs + [d]) && Catalogued(defs) && Registrable(d)
    ensures d.schema.Complete() && (forall x | x in defs :: x.schema.Complete())
    ensures forall x | x in defs + [d] :: x.schema.Complete()
    ensures forall f | f in d.schema.names :: f in LayoutOf(d.schema).offsets
    ensures TableRows(defs + [d]) == TableRows(defs) + [TableRow(d.name, LayoutOf(d.schema).slotsize)]
    ensures AllFieldRows(defs + [d]) == AllFieldRows(defs) + FieldRows(d.name, LayoutOf(d.schema), d.schema.names)
  {
    RegistrableLayout(d);
    assert (defs + [d])[..|defs|] == defs;
  }

  /** `tblcat` gets the record of the table. */
  method RecordTable(file: TableFile, l: Layout, d: TableDef, ghost rows: seq<Row>)
    requires Registrable(d) && d.schema.Complete()
    requires TcatSchema().Complete() && l == LayoutOf(TcatSchema()) && Recorded(file, l, rows)
    modifies file
    ensures Recorded(file, l, rows + [TableRow(d.name, LayoutOf(d.schema).slotsize)])
  {
    hide Recorded, Appending, LayoutOf, Good;
    var layout := MakeLayout(d.schema);
    var tcat := OpenCatalog(file, l, rows);
    var row := TableRow(d.name, layout.slotsize);
    TableRowFits(d, layout.slotsize);
    LayoutSchema(TcatSchema());
    AppendRow(tcat, row, rows);
    StillRecorded(tcat, rows + [row]);
  }

  lemma LayoutSchema(schema: Fields)
    requires schema.Complete()
    ensures LayoutOf(schema).schema == schema
  {}

  lemma TableRowFits(d: TableDef, slotsize: nat)
    requires Registrable(d)
    ensures var s := TcatSchema(); var row := TableRow(d.name, slotsize);
            && row.Keys == (set f | f in s.names)
            && forall f | f in s.names :: f in s.info && s.info[f].Fits(row[f])
  {
    CatalogFields();
  }

  /** `fldcat` gets a record for every field. */
  method RecordFields(file: TableFile, l: Layout, d: TableDef, layout: Layout, ghost rows: seq<Row>)
    requires Registrable(d) && d.schema.Complete() && layout == LayoutOf(d.schema)
    requires forall f | f in d.schema.names :: f in layout.offsets
    requires FcatSchema().Complete() && l == LayoutOf(FcatSchema()) && Recorded(file, l, rows)
    modifies file
    ensures Recorded(file, l, rows + FieldRows(d.name, layout, d.schema.names))
  {
    hide Recorded, Appending, Good, OffsetsOf, SizeOf, FieldRow;
    var fcat := OpenCatalog(file, l, rows);
    LayoutSchema(FcatSchema());
    var names := d.schema.names;
    assert rows + [] == rows && names[..0] == [];
    for k := 0 to |names|
      invariant fcat.layout == l && fcat.file == file && Appending(fcat, rows + FieldRows(d.name, layout, names[..k]))
    {
      RecordField(fcat, d, layout, k, rows);
    }
    assert names[..|names|] == names;
    StillRecorded(fcat, rows + FieldRows(d.name, layout, names));
  }

  method RecordField(fcat: TableScan, d: TableDef, layout: Layout, k: nat, ghost rows: seq<Row>)
    requires Registrable(d) && d.schema.Complete() && layout == LayoutOf(d.schema) && k < |d.schema.names|
    requires forall f | f in d.schema.names :: f in layout.offsets
    requires FcatSchema().Complete() && fcat.layout.schema == FcatSchema()
    requires Appending(fcat, rows + FieldRows(d.name, layout, d.schema.names[..k]))
    modifies fcat, fcat.file
    ensures Appending(fcat, rows + FieldRows(d.name, layout, d.schema.names[..k + 1]))
  {
    hide Recorded, Appending, Good, OffsetsOf, SizeOf, FieldRow;
    var f := d.schema.names[k];
    ghost var before := rows + FieldRows(d.name, layout, d.schema.names[..k]);
    var row := FieldRow(d.name, f, layout.schema.info[f], layout.offsets[f]);
    FieldRowFits(d, f, layout.offsets[f]);
    TakeMore(d.schema.names, k);
    FieldRowsSnoc(d.name, layout, d.schema.names[..k + 1]);
    hide FieldRows, Registrable;
    assert d.schema.names[..k + 1][..k] == d.schema.names[..k];
    assert rows + FieldRows(d.name, layout, d.schema.names[..k + 1]) == before + [row];
    AppendRow(fcat, row, before);
  }

  lemma FieldRowFits(d: TableDef, f: Str, offset: nat)
    requires Registrable(d) && f in d.schema.names && f in d.schema.info
    ensures var s := FcatSchema(); var row := FieldRow(d.name, f, d.schema.info[f], offset);
            && row.Keys == (set f | f in s.names)
            && forall g | g in s.names :: g in s.info && s.info[g].Fits(row[g])
  {
    CatalogFields();
    CatalogSpelling();
    hide FcatSchema, TcatSchema, Ascii;
  }

  lemma SizeSnoc(names: seq<Str>, f: Str, info: map<Str, FieldInfo>)
    requires f in info && forall g | g in names :: g in info
    ensures SizeOf(names + [f], info) == SizeOf(names, info) + info[f].Bytes()
  {
    assert (names + [f])[..|names|] == names;
  }

  /** The catalog tables can be registered in themselves. */
  lemma CatalogsRegistrable()
    ensures Registrable(TableDef(TBLCAT, TcatSchema())) && Registrable(TableDef(FLDCAT, FcatSchema()))
    ensures TBLCAT != FLDCAT
  {
    TcatRegistrable();
    FcatRegistrable();
    assert TBLCAT[0] != FLDCAT[0];
  }

  lemma TcatRegistrable()
    ensures Registrable(TableDef(TBLCAT, TcatSchema()))
  {
    CatalogFields();
    var i := TcatSchema().info;
    SizeSnoc([], TBLNAME, i);
    SizeSnoc([TBLNAME], SLOTSIZE, i);
    assert [] + [TBLNAME] == [TBLNAME] && [TBLNAME] + [SLOTSIZE] == [TBLNAME, SLOTSIZE];
    assert |TBLNAME| != |SLOTSIZE|;
  }

  lemma SizeWith(s: Fields, f: Str, i: FieldInfo)
    requires s.Complete() && f !in s.names
    ensures SizeOf(s.With(f, i).names, s.With(f, i).info) == SizeOf(s.names, s.info) + i.Bytes()
  {
    SizeSame(s.names, s.info, s.With(f, i).info);
    SizeSnoc(s.names, f, s.With(f, i).info);
  }

  /** Adding a field with a new name. */
  lemma RegistrableWith(d: TableDef, f: Str, i: FieldInfo)
    requires Registrable(d) && f !in d.schema.names && |f| <= MAX_NAME && i.length < 0x8000_0000
    requires SizeOf(d.schema.names, d.schema.info) + i.Bytes() < 0x8000_0000
    ensures Registrable(TableDef(d.name, d.schema.With(f, i)))
    ensures SizeOf(d.schema.With(f, i).names, d.schema.With(f, i).info) ==
            SizeOf(d.schema.names, d.schema.info) + i.Bytes()
  {
    SizeWith(d.schema, f, i);
    DistinctSnoc(d.schema.names, f);
    hide SizeOf, Distinct;
    forall g | g in d.schema.names + [f]
      ensures |g| <= MAX_NAME && g in d.schema.info[f := i] && d.schema.info[f := i][g].length < 0x8000_0000
    {
    }
  }

  lemma {:induction false} SizeSame(names: seq<Str>, a: map<Str, FieldInfo>, b: map<Str, FieldInfo>)
    requires forall f | f in names :: f in a && f in b && a[f] == b[f]
    ensures SizeOf(names, a) == SizeOf(names, b)
  {
    if names != [] {
      SizeSame(names[..|names| - 1], a, b);
    }
  }

  lemma NamesDiffer()
    ensures TBLNAME != FLDNAME && LENGTH != OFFSET
    ensures |TBLNAME| == 7 && |FLDNAME| == 7 && |SLOTSIZE| == 8 && |TYPE| == 4 && |LENGTH| == 6 && |OFFSET| == 6
  {
    assert TBLNAME[0] != FLDNAME[0] && LENGTH[0] != OFFSET[0];
  }

  lemma FcatRegistrable()
    ensures Registrable(TableDef(FLDCAT, FcatSchema()))
  {
    hide Registrable;
    NamesDiffer();
    var s0 := Fields([], map[]);
    NoFieldsRegistrable(FLDCAT);
    RegistrableWith(TableDef(FLDCAT, s0), TBLNAME, FieldInfo(VARCHAR, MAX_NAME));
    var s1 := s0.With(TBLNAME, FieldInfo(VARCHAR, MAX_NAME));
    RegistrableWith(TableDef(FLDCAT, s1), FLDNAME, FieldInfo(VARCHAR, MAX_NAME));
    var s2 := s1.With(FLDNAME, FieldInfo(VARCHAR, MAX_NAME));
    RegistrableWith(TableDef(FLDCAT, s2), TYPE, FieldInfo(INTEGER, 0));
    var s3 := s2.With(TYPE, FieldInfo(INTEGER, 0));
    RegistrableWith(TableDef(FLDCAT, s3), LENGTH, FieldInfo(INTEGER, 0));
    var s4 := s3.With(LENGTH, FieldInfo(INTEGER, 0));
    RegistrableWith(TableDef(FLDCAT, s4), OFFSET, FieldInfo(INTEGER, 0));
  }

  lemma NoFieldsRegistrable(name: Str)
    requires |name| <= MAX_NAME
    ensures Registrable(TableDef(name, Fields([], map[])))
    ensures SizeOf([], map[]) == FLAG_SIZE
  {}

  // ---------------------------------------------------------------------------------------------
  // Reading the catalog tables
  // ---------------------------------------------------------------------------------------------

  lemma {:induction false} RowsIndex(t: SlotTable, rids: seq<RID>, k: nat)
    requires (forall r | r in rids :: IsSlotOf(t, r)) && k < |rids|
    ensures |RowsAt(t, rids)| == |rids| && RowsAt(t, rids)[k] == SlotOf(t, rids[k]).row
  {
    var n := |rids| - 1;
    if k < n {
      RowsIndex(t, rids[..n], k);
    } else if n > 0 {
      RowsIndex(t, rids[..n], 0);
    }
  }

  /** The scan reads the records `rows` and has passed `k` of them, the current one included. */
  ghost predicate Reading(scan: TableScan, rows: seq<Row>, k: nat)
    reads scan, scan.file
  {
    && scan.Valid() && Packed(scan.Contents()) && RowsOf(scan.Contents()) == rows
    && |UsedFrom(scan.Contents(), 0, 0)| == |rows| && k <= |rows|
    && scan.Rest() == UsedFrom(scan.Contents(), 0, 0)[k..]
    && (k > 0 ==> scan.OnSlot() && scan.Here() == UsedFrom(scan.Contents(), 0, 0)[k - 1])
  }

  lemma {:induction false} RowsLength(t: SlotTable, rids: seq<RID>)
    requires forall r | r in rids :: IsSlotOf(t, r)
    ensures |RowsAt(t, rids)| == |rids|
  {
    if rids != [] {
      RowsLength(t, rids[..|rids| - 1]);
    }
  }

  lemma StartsReading(scan: TableScan, rows: seq<Row>)
    requires Appending(scan, rows) && scan.currentslot.None?
    ensures Reading(scan, rows, 0)
  {
    UsedAreSlots(scan.Contents());
    RowsLength(scan.Contents(), UsedFrom(scan.Contents(), 0, 0));
  }

  /** The next record of the list. */
  method NextRow(scan: TableScan, ghost rows: seq<Row>, ghost k: nat) returns (more: bool)
    requires Reading(scan, rows, k)
    modifies scan
    ensures more <==> k < |rows|
    ensures more ==> Reading(scan, rows, k + 1)
    ensures Recorded(scan.file, scan.layout, rows)
  {
    hide Packed, RowsOf, UsedFrom, FileOk;
    ghost var all := UsedFrom(scan.Contents(), 0, 0);
    more := scan.Next();
    if more {
      assert all[k..][1..] == all[k + 1..] && all[k..][0] == all[k];
    }
  }

  lemma CurrentRow(scan: TableScan, rows: seq<Row>, k: nat)
    requires Reading(scan, rows, k) && k > 0
    ensures scan.OnSlot() && SlotOf(scan.Contents(), scan.Here()).row == rows[k - 1]
    ensures rows[k - 1].Keys == set f | f in scan.layout.schema.names
    ensures forall f | f in scan.layout.schema.names ::
              f in scan.layout.schema.info && scan.layout.schema.info[f].Fits(rows[k - 1][f])
  {
    UsedAreSlots(scan.Contents());
    RowsIndex(scan.Contents(), UsedFrom(scan.Contents(), 0, 0), k - 1);
    scan.RowHere(scan.Here());
  }

  method GetString(scan: TableScan, f: Str, ghost rows: seq<Row>, ghost k: nat) returns (s: Str)
    requires Reading(scan, rows, k) && k > 0
    requires f in scan.layout.schema.names && f in scan.layout.schema.info && scan.layout.schema.info[f].kind == VARCHAR
    ensures Reading(scan, rows, k) && f in rows[k - 1] && rows[k - 1][f] == StrVal(s)
  {
    hide Packed, RowsOf, UsedFrom, FileOk;
    CurrentRow(scan, rows, k);
    var v := scan.GetVal(f);
    s := v.s;
  }

  method GetInt(scan: TableScan, f: Str, ghost rows: seq<Row>, ghost k: nat) returns (i: int32)
    requires Reading(scan, rows, k) && k > 0
    requires f in scan.layout.schema.names && f in scan.layout.schema.info && scan.layout.schema.info[f].kind == INTEGER
    ensures Reading(scan, rows, k) && f in rows[k - 1] && rows[k - 1][f] == IntVal(i)
  {
    hide Packed, RowsOf, UsedFrom, FileOk;
    CurrentRow(scan, rows, k);
    var v := scan.GetVal(f);
    i := v.i;
  }

  /** The slot size that `tblcat` has for a table. */
  method ReadSize(file: TableFile, l: Layout, name: Str, ghost rows: seq<Row>) returns (size: Option<nat>)
    requires TcatSchema().Complete() && l == LayoutOf(TcatSchema()) && Recorded(file, l, rows)
    modifies file
    ensures Recorded(file, l, rows) && size == FindSize(rows, name)
  {
    hide Recorded, Reading, Appending, OffsetsOf, SizeOf;
    CatalogFields();
    size := None;
    var tcat := OpenCatalog(file, l, rows);
    StartsReading(tcat, rows);
    ghost var k := 0;
    assert rows[0..] == rows;
    var more := NextRow(tcat, rows, k);
    while more
      invariant tcat.file == file && tcat.layout == l && Recorded(file, l, rows) && (more <==> k < |rows|)
                && k <= |rows|
      invariant more ==> Reading(tcat, rows, k + 1)
      invariant size == None && FindSize(rows, name) == FindSize(rows[k..], name)
      decreases |rows| - k
    {
      var tblname := GetString(tcat, TBLNAME, rows, k + 1);
      assert rows[k..][1..] == rows[k + 1..] && rows[k..][0] == rows[k];
      if tblname == name {
        var n := GetInt(tcat, SLOTSIZE, rows, k + 1);
        size := Some(ToSize(n));
        break;
      }
      k := k + 1;
      more := NextRow(tcat, rows, k);
    }
  }

  /** The schema and the offsets that `fldcat` has for a table; nothing where the source throws. */
  method ReadFields(file: TableFile, l: Layout, name: Str, ghost rows: seq<Row>)
    returns (fields: Option<(Fields, map<Str, nat>)>)
    requires FcatSchema().Complete() && l == LayoutOf(FcatSchema()) && Recorded(file, l, rows)
    modifies file
    ensures Recorded(file, l, rows) && fields == Gather(rows, name)
  {
    hide Recorded, Reading, Appending, OffsetsOf, SizeOf, Gather;
    var sch, offsets: map<Str, nat> := Fields([], map[]), map[];
    var fcat := OpenCatalog(file, l, rows);
    StartsReading(fcat, rows);
    ghost var k := 0;
    GatherNothing(name);
    assert rows[..0] == [];
    var more := NextRow(fcat, rows, k);
    while more
      invariant fcat.file == file && fcat.layout == l && Recorded(file, l, rows) && (more <==> k < |rows|)
                && k <= |rows|
      invariant more ==> Reading(fcat, rows, k + 1)
      invariant Gather(rows[..k], name) == Some((sch, offsets))
      decreases |rows| - k
    {
      GatherRow(rows, name, k);
      var taken := TakeRow(fcat, name, sch, offsets, rows, k);
      if taken.None? {
        GatherStops(rows, name, k + 1);
        return None;
      }
      sch, offsets := taken.value.0, taken.value.1;
      k := k + 1;
      more := NextRow(fcat, rows, k);
    }
    assert rows[..|rows|] == rows;
    fields := Some((sch, offsets));
  }

  lemma GatherNothing(name: Str)
    ensures Gather([], name) == Some((Fields([], map[]), map[]))
  {}

  lemma GatherRow(rows: seq<Row>, name: Str, k: nat)
    requires k < |rows|
    ensures Gather(rows[..k + 1], name) ==
            match Gather(rows[..k], name)
            case None => None
            case Some((sch, offsets)) => Take(rows[k], name, sch, offsets)
  {
    assert rows[..k + 1][..k] == rows[..k];
  }

  lemma {:induction false} GatherStops(rows: seq<Row>, name: Str, k: nat)
    requires k <= |rows| && Gather(rows[..k], name) == None
    ensures Gather(rows, name) == None
    decreases |rows| - k
  {
    if k == |rows| {
      assert rows[..k] == rows;
    } else {
      GatherRow(rows, name, k);
      GatherStops(rows, name, k + 1);
    }
  }

  /** The columns of the current record of `fldcat` behind the table name. */
  method ReadColumns(fcat: TableScan, ghost rows: seq<Row>, ghost k: nat)
    returns (fldname: Str, fldtype: int32, fldlen: int32, fldoffset: int32)
    requires Reading(fcat, rows, k) && k > 0 && fcat.layout.schema == FcatSchema() && IsFieldRow(rows[k - 1])
    ensures Reading(fcat, rows, k)
    ensures rows[k - 1][FLDNAME] == StrVal(fldname) && rows[k - 1][TYPE] == IntVal(fldtype)
    ensures rows[k - 1][LENGTH] == IntVal(fldlen) && rows[k - 1][OFFSET] == IntVal(fldoffset)
  {
    CatalogFields();
    FcatColumns();
    hide Packed, RowsOf, UsedFrom, FileOk, Reading, FcatSchema, IsFieldRow;
    fldname := GetString(fcat, FLDNAME, rows, k);
    fldtype := GetInt(fcat, TYPE, rows, k);
    fldlen := GetInt(fcat, LENGTH, rows, k);
    fldoffset := GetInt(fcat, OFFSET, rows, k);
  }

  lemma FcatColumns()
    ensures var i := FcatSchema().info;
            && TBLNAME in i && FLDNAME in i && TYPE in i && LENGTH in i && OFFSET in i
            && i[TBLNAME].kind == VARCHAR && i[FLDNAME].kind == VARCHAR
            && i[TYPE].kind == INTEGER && i[LENGTH].kind == INTEGER && i[OFFSET].kind == INTEGER
  {
    CatalogFields();
  }

  /** The current record of `fldcat`, if it belongs to the table. */
  method TakeRow(fcat: TableScan, name: Str, sch: Fields, offsets: map<Str, nat>, ghost rows: seq<Row>, ghost k: nat)
    returns (taken: Option<(Fields, map<Str, nat>)>)
    requires Reading(fcat, rows, k + 1) && k < |rows| && fcat.layout.schema == FcatSchema()
    ensures Recorded(fcat.file, fcat.layout, rows) && taken == Take(rows[k], name, sch, offsets)
  {
    CatalogFields();
    FcatColumns();
    hide Packed, RowsOf, UsedFrom, FileOk, Reading, Recorded, FcatSchema, IsFieldRow;
    CurrentRow(fcat, rows, k + 1);
    FieldRowShape(rows[k]);
    var tblname := GetString(fcat, TBLNAME, rows, k + 1);
    ReadingRecorded(fcat, rows, k + 1);
    if tblname != name {
      return Some((sch, offsets));
    }
    var fldname, fldtype, fldlen, fldoffset := ReadColumns(fcat, rows, k + 1);
    ReadingRecorded(fcat, rows, k + 1);
    var kind;
    if fldtype == TypeCode(INTEGER) {
      kind := INTEGER;
    } else if fldtype == TypeCode(VARCHAR) {
      kind := VARCHAR;
    } else {
      return None;
    }
    taken := Some((sch.With(fldname, FieldInfo(kind, ToSize(fldlen))), offsets[fldname := ToSize(fldoffset)]));
  }

  lemma ReadingRecorded(scan: TableScan, rows: seq<Row>, k: nat)
    requires Reading(scan, rows, k)
    ensures Recorded(scan.file, scan.layout, rows) && k <= |rows|
  {}

  /** A record of `fldcat` has the fields of its schema, with values of their types. */
  lemma FieldRowShape(r: Row)
    requires r.Keys == set f | f in FcatSchema().names
    requires forall f | f in FcatSchema().names :: f in FcatSchema().info && FcatSchema().info[f].Fits(r[f])
    ensures IsFieldRow(r)
  {
    CatalogFields();
  }
}

/**
 Schemas, record layouts, and the bytes of the slots of a block.
 */
module Layouts {
  import opened Types
  import opened Ordering
  import opened Pages

  const FLAG_SIZE: nat := 4
  const EMPTY: int32 := 0
  const USED: int32 := 1

  datatype FieldType = INTEGER | VARCHAR

  datatype FieldInfo = FieldInfo(kind: FieldType, length: nat)
  {
    /** `Layout::length_in_bytes`: a string has its length in front. */
    function Bytes(): (n: nat)
      ensures n >= 4
    {
      if kind == INTEGER then 4 else 4 + length
    }

    /** A value of the type of the field, and not longer than declared. */
    predicate Fits(v: Value) {
      match v
      case IntVal(_) => kind == INTEGER
      case StrVal(s) => kind == VARCHAR && |s| <= length && |s| < 0x8000_0000
    }
  }

  /** What a `Schema` holds: its fields in order, and what is known of each. */
  datatype Fields = Fields(names: seq<Str>, info: map<Str, FieldInfo>)
  {
    predicate Complete() {
      forall f | f in names :: f in info
    }

    function With(f: Str, i: FieldInfo): Fields {
      Fields(names + [f], info[f := i])
    }
  }

  class Schema {
    var fields: seq<Str>
    var info: map<Str, FieldInfo>

    ghost function Now(): Fields
      reads this
    {
      Fields(fields, info)
    }

    constructor ()
      ensures Now() == Fields([], map[])
    {
      fields, info := [], map[];
    }

    method AddField(fldname: Str, kind: FieldType, length: nat)
      modifies this
      ensures Now() == old(Now()).With(fldname, FieldInfo(kind, length))
    {
      fields := fields + [fldname];
      info := info[fldname := FieldInfo(kind, length)];
    }
  }

  // ---------------------------------------------------------------------------------------------
  // Layout
  // ---------------------------------------------------------------------------------------------

  datatype Layout = Layout(schema: Fields, offsets: map<Str, nat>, slotsize: nat)

  /** The size of the flag and the fields so far. */
  function SizeOf(names: seq<Str>, info: map<Str, FieldInfo>): (n: nat)
    requires forall f | f in names :: f in info
    ensures n >= FLAG_SIZE
  {
    if names == [] then FLAG_SIZE
    else SizeOf(names[..|names| - 1], info) + info[names[|names| - 1]].Bytes()
  }

  function OffsetsOf(names: seq<Str>, info: map<Str, FieldInfo>): map<Str, nat>
    requires forall f | f in names :: f in info
  {
    if names == [] then map[]
    else
      var init := names[..|names| - 1];
      OffsetsOf(init, info)[names[|names| - 1] := SizeOf(init, info)]
  }

  function LayoutOf(schema: Fields): Layout
    requires schema.Complete()
  {
    Layout(schema, OffsetsOf(schema.names, schema.info), SizeOf(schema.names, schema.info))
  }

  /** The constructor that computes a layout from a schema. */
  method MakeLayout(schema: Fields) returns (layout: Layout)
    requires schema.Complete()
    ensures layout == LayoutOf(schema)
  {
    var slotsize := FLAG_SIZE;
    var offsets: map<Str, nat> := map[];
    for k := 0 to |schema.names|
      invariant slotsize == SizeOf(schema.names[..k], schema.info)
      invariant offsets == OffsetsOf(schema.names[..k], schema.info)
    {
      var fldname := schema.names[k];
      assert schema.names[..k + 1][..k] == schema.names[..k];
      offsets := offsets[fldname := slotsize];
      slotsize := slotsize + schema.info[fldname].Bytes();
    }
    assert schema.names[..|schema.names|] == schema.names;
    layout := Layout(schema, offsets, slotsize);
  }

  /** Places in turn: the first one behind the flag, and each next one where the field before it ends. */
  ghost predicate InTurn(schema: Fields, places: seq<nat>)
    requires schema.Complete()
  {
    && |places| == |schema.names| + 1 && places[0] == 4
    && forall k | 0 <= k < |schema.names| ::
         var i := schema.info[schema.names[k]];
         places[k + 1] == places[k] + if i.kind == INTEGER then 4 else 4 + i.length
  }

  /** `f` occurs at `k` for the last time. */
  predicate LastAt(names: seq<Str>, k: nat, f: Str) {
    k < |names| && names[k] == f && forall m | k < m < |names| :: names[m] != f
  }

  lemma {:induction false} OffsetAt(names: seq<Str>, info: map<Str, FieldInfo>, k: nat)
    requires (forall f | f in names :: f in info) && k < |names| && LastAt(names, k, names[k])
    ensures names[k] in OffsetsOf(names, info) && OffsetsOf(names, info)[names[k]] == SizeOf(names[..k], info)
  {
    var n := |names| - 1;
    if k < n {
      OffsetAt(names[..n], info, k);
      assert names[..n][..k] == names[..k];
    }
  }

  /**
   Every field stands where the one in front of it ends, four bytes further, or four and its declared length, and the
   slot ends with the last field. A field named twice stands at its last place.
   */
  lemma LayoutPlaces(schema: Fields) returns (places: seq<nat>)
    requires schema.Complete()
    ensures InTurn(schema, places) && LayoutOf(schema).slotsize == places[|schema.names|]
    ensures forall k: nat, f | LastAt(schema.names, k, f) ::
              f in LayoutOf(schema).offsets && LayoutOf(schema).offsets[f] == places[k]
  {
    var names, info := schema.names, schema.info;
    places := seq(|names| + 1, k requires 0 <= k <= |names| => SizeOf(names[..k], info));
    forall k | 0 <= k < |names|
      ensures places[k + 1] == places[k] + if info[names[k]].kind == INTEGER then 4 else 4 + info[names[k]].length
    {
      assert names[..k + 1][..k] == names[..k];
    }
    assert names[..|names|] == names;
    forall k: nat, f | LastAt(names, k, f)
      ensures f in LayoutOf(schema).offsets && LayoutOf(schema).offsets[f] == places[k]
    {
      OffsetAt(names, info, k);
    }
  }

  /** Two ranges of bytes that do not meet. */
  predicate Apart(lo: nat, hi: nat, lo': nat, hi': nat) {
    hi <= lo' || hi' <= lo
  }

  /** Every field has a place in the slot, behind the flag, and no two fields overlap. */
  ghost predicate Good(l: Layout) {
    && l.schema.Complete() && l.slotsize >= FLAG_SIZE
    && (forall f | f in l.schema.names ::
          f in l.offsets && FLAG_SIZE <= l.offsets[f] && l.offsets[f] + l.schema.info[f].Bytes() <= l.slotsize)
    && forall f, g | f in l.schema.names && g in l.schema.names && f != g ::
         Apart(l.offsets[f], l.offsets[f] + l.schema.info[f].Bytes(),
               l.offsets[g], l.offsets[g] + l.schema.info[g].Bytes())
  }

  lemma {:induction false} OffsetsGood(names: seq<Str>, info: map<Str, FieldInfo>)
    requires forall f | f in names :: f in info
    ensures Good(Layout(Fields(names, info), OffsetsOf(names, info), SizeOf(names, info)))
  {
    if names != [] {
      OffsetsGood(names[..|names| - 1], info);
      assert names == names[..|names| - 1] + [names[|names| - 1]];
    }
  }

  /** The layout computed from a schema gives its fields disjoint places, in whatever order they come. */
  lemma LayoutGood(schema: Fields)
    requires schema.Complete()
    ensures Good(LayoutOf(schema))
  {
    OffsetsGood(schema.names, schema.info);
  }

  // ---------------------------------------------------------------------------------------------
  // The bytes of a slot
  // ---------------------------------------------------------------------------------------------

  /** `RecordPage::offset`. */
  function SlotPos(l: Layout, slot: nat): nat {
    slot * l.slotsize
  }

  /** `RecordPage::is_valid_slot`. */
  predicate IsSlot(l: Layout, slot: nat, blocksize: nat) {
    SlotPos(l, slot + 1) <= blocksize
  }

  function FieldPos(l: Layout, slot: nat, f: Str): nat
    requires f in l.offsets
  {
    SlotPos(l, slot) + l.offsets[f]
  }

  lemma Product(a: nat, b: nat, z: nat)
    ensures (a + 1) * z == a * z + z
    ensures a <= b ==> a * z <= b * z
  {
    if a <= b {
      assert b * z == a * z + (b - a) * z;
    }
  }

  lemma SlotOrder(l: Layout, slot: nat, slot': nat)
    ensures SlotPos(l, slot + 1) == SlotPos(l, slot) + l.slotsize
    ensures slot < slot' ==> SlotPos(l, slot + 1) <= SlotPos(l, slot')
  {
    Product(slot, slot, l.slotsize);
    Product(slot + 1, slot', l.slotsize);
  }

  function FieldBytes(v: Value): seq<byte>
    requires v.StrVal? ==> |v.s| < 0x8000_0000
  {
    match v
    case IntVal(i) => IntBytes(i)
    case StrVal(s) => Blob(s)
  }

  /** A field as the getters of its type read it. */
  function ReadField(l: Layout, p: seq<byte>, slot: nat, f: Str): Option<Value>
    requires f in l.offsets && f in l.schema.info
  {
    if l.schema.info[f].kind == INTEGER then
      match GetInt(p, FieldPos(l, slot, f))
      case Some(i) => Some(IntVal(i))
      case None => None
    else
      match GetBytes(p, FieldPos(l, slot, f))
      case Some(s) => Some(StrVal(s))
      case None => None
  }

  /** The place of a field in the block. */
  ghost predicate InPlace(l: Layout, p: seq<byte>, slot: nat, f: Str) {
    Good(l) && f in l.schema.names && IsSlot(l, slot, |p|)
  }

  lemma PlaceInBlock(l: Layout, p: seq<byte>, slot: nat, f: Str)
    requires InPlace(l, p, slot, f)
    ensures SlotPos(l, slot) + FLAG_SIZE <= FieldPos(l, slot, f)
    ensures FieldPos(l, slot, f) + l.schema.info[f].Bytes() <= SlotPos(l, slot + 1) <= |p|
  {
    SlotOrder(l, slot, slot);
  }

  /** The places of two different fields, or of fields of two slots, do not meet. */
  lemma PlacesApart(l: Layout, p: seq<byte>, slot: nat, f: Str, slot': nat, g: Str)
    requires InPlace(l, p, slot, f) && InPlace(l, p, slot', g) && (slot != slot' || f != g)
    ensures Apart(FieldPos(l, slot, f), FieldPos(l, slot, f) + l.schema.info[f].Bytes(),
                  FieldPos(l, slot', g), FieldPos(l, slot', g) + l.schema.info[g].Bytes())
  {
    PlaceInBlock(l, p, slot, f);
    PlaceInBlock(l, p, slot', g);
    SlotOrder(l, slot, slot');
    SlotOrder(l, slot', slot);
  }

  /** Flags do not meet fields. */
  lemma FlagApart(l: Layout, p: seq<byte>, slot: nat, f: Str, slot': nat)
    requires InPlace(l, p, slot, f) && IsSlot(l, slot', |p|)
    ensures Apart(FieldPos(l, slot, f), FieldPos(l, slot, f) + l.schema.info[f].Bytes(),
                  SlotPos(l, slot'), SlotPos(l, slot') + FLAG_SIZE)
    ensures SlotPos(l, slot') + FLAG_SIZE <= |p|
  {
    PlaceInBlock(l, p, slot, f);
    SlotOrder(l, slot, slot');
    SlotOrder(l, slot', slot);
    SlotOrder(l, slot', slot');
  }

  /** Reading a field looks at the bytes of its place only, if what is read fits. */
  lemma ReadsPlace(l: Layout, p: seq<byte>, q: seq<byte>, slot: nat, f: Str, v: Value)
    requires InPlace(l, p, slot, f) && |q| == |p| && ReadField(l, p, slot, f) == Some(v) && l.schema.info[f].Fits(v)
    requires var a := FieldPos(l, slot, f); var b := a + l.schema.info[f].Bytes();
             b <= |p| && p[a..b] == q[a..b]
    ensures ReadField(l, q, slot, f) == Some(v)
  {
    var a := FieldPos(l, slot, f);
    var n := l.schema.info[f].Bytes();
    SliceIn(p, a, a + n, a, a + 4);
    SliceIn(q, a, a + n, a, a + 4);
    if v.StrVal? {
      SliceIn(p, a, a + n, a + 4, a + 4 + |v.s|);
      SliceIn(q, a, a + n, a + 4, a + 4 + |v.s|);
    }
  }

  lemma SliceIn(p: seq<byte>, lo: nat, hi: nat, a: nat, b: nat)
    requires lo <= a <= b <= hi <= |p|
    ensures p[a..b] == p[lo..hi][a - lo..b - lo]
  {
    var x, y := p[a..b], p[lo..hi][a - lo..b - lo];
    assert forall k | 0 <= k < |x| :: x[k] == p[a + k] && y[k] == p[a + k];
  }

  /** A field of a slot has the same bytes in two blocks. */
  ghost predicate SameField(l: Layout, p: seq<byte>, q: seq<byte>, slot: nat, f: Str) {
    && f in l.offsets && f in l.schema.info && |q| == |p|
    && var a := FieldPos(l, slot, f); var b := a + l.schema.info[f].Bytes(); b <= |p| && q[a..b] == p[a..b]
  }

  ghost predicate SameFlag(l: Layout, p: seq<byte>, q: seq<byte>, slot: nat) {
    var a := SlotPos(l, slot); |q| == |p| && a + FLAG_SIZE <= |p| && q[a..a + FLAG_SIZE] == p[a..a + FLAG_SIZE]
  }

  lemma WriteOther(l: Layout, p: seq<byte>, slot: nat, f: Str, v: Value, slot': nat, g: Str)
    requires InPlace(l, p, slot, f) && l.schema.info[f].Fits(v)
    requires InPlace(l, p, slot', g) && (slot != slot' || f != g)
    ensures FieldPos(l, slot, f) + |FieldBytes(v)| <= |p|
    ensures SameField(l, p, Splice(p, FieldPos(l, slot, f), FieldBytes(v)), slot', g)
  {
    hide SlotPos, Splice;
    PlacesApart(l, p, slot, f, slot', g);
    PlaceInBlock(l, p, slot, f);
    PlaceInBlock(l, p, slot', g);
    var a := FieldPos(l, slot', g);
    WritesNothingElse(p, FieldPos(l, slot, f), FieldBytes(v), a, a + l.schema.info[g].Bytes());
  }

  lemma WriteFlags(l: Layout, p: seq<byte>, slot: nat, f: Str, v: Value, slot': nat)
    requires InPlace(l, p, slot, f) && l.schema.info[f].Fits(v) && IsSlot(l, slot', |p|)
    ensures FieldPos(l, slot, f) + |FieldBytes(v)| <= |p|
    ensures SameFlag(l, p, Splice(p, FieldPos(l, slot, f), FieldBytes(v)), slot')
  {
    hide SlotPos, Splice;
    FlagApart(l, p, slot, f, slot');
    PlaceInBlock(l, p, slot, f);
    var a := SlotPos(l, slot');
    WritesNothingElse(p, FieldPos(l, slot, f), FieldBytes(v), a, a + FLAG_SIZE);
  }

  /**
   Writing a fitting value to one field of one slot: it is read back, and the bytes of every other field of every slot,
   and of every flag, stay.
   */
  lemma FieldIndependence(l: Layout, p: seq<byte>, slot: nat, f: Str, v: Value)
    requires InPlace(l, p, slot, f) && l.schema.info[f].Fits(v)
    ensures FieldPos(l, slot, f) + |FieldBytes(v)| <= |p|
    ensures var q := Splice(p, FieldPos(l, slot, f), FieldBytes(v));
            && ReadField(l, q, slot, f) == Some(v)
            && (forall slot': nat, g | InPlace(l, p, slot', g) && (slot != slot' || f != g) ::
                  SameField(l, p, q, slot', g))
            && (forall slot': nat | IsSlot(l, slot', |p|) :: SameFlag(l, p, q, slot'))
  {
    PlaceInBlock(l, p, slot, f);
    var pos := FieldPos(l, slot, f);
    var q := Splice(p, pos, FieldBytes(v));
    match v {
      case IntVal(i) => IntReadsBack(p, pos, i);
      case StrVal(s) => BlobReadsBack(p, pos, s);
    }
    hide SameField, SameFlag, Good, IsSlot, InPlace;
    forall slot': nat, g | InPlace(l, p, slot', g) && (slot != slot' || f != g)
      ensures SameField(l, p, q, slot', g)
    {
      WriteOther(l, p, slot, f, v, slot', g);
    }
    forall slot': nat | IsSlot(l, slot', |p|)
      ensures SameFlag(l, p, q, slot')
    {
      WriteFlags(l, p, slot, f, v, slot');
    }
  }

  /** Writing a flag leaves every field and every other flag. */
  lemma FlagIndependence(l: Layout, p: seq<byte>, slot: nat, flag: int32)
    requires Good(l) && IsSlot(l, slot, |p|)
    ensures SlotPos(l, slot) + FLAG_SIZE <= |p|
    ensures var q := Splice(p, SlotPos(l, slot), IntBytes(flag));
            && GetInt(q, SlotPos(l, slot)) == Some(flag)
            && (forall slot': nat, g | InPlace(l, p, slot', g) :: SameField(l, p, q, slot', g))
            && (forall slot': nat | IsSlot(l, slot', |p|) && slot' != slot :: SameFlag(l, p, q, slot'))
  {
    hide SlotPos;
    SlotOrder(l, slot, slot);
    var pos := SlotPos(l, slot);
    var q := Splice(p, pos, IntBytes(flag));
    IntReadsBack(p, pos, flag);
    forall slot': nat, g | InPlace(l, p, slot', g)
      ensures SameField(l, p, q, slot', g)
    {
      FlagApart(l, p, slot', g, slot);
      PlaceInBlock(l, p, slot', g);
      WritesNothingElse(p, pos, IntBytes(flag),
                        FieldPos(l, slot', g), FieldPos(l, slot', g) + l.schema.info[g].Bytes());
    }
    forall slot': nat | IsSlot(l, slot', |p|) && slot' != slot
      ensures SameFlag(l, p, q, slot')
    {
      SlotOrder(l, slot', slot');
      SlotOrder(l, slot, slot');
      SlotOrder(l, slot', slot);
      WritesNothingElse(p, pos, IntBytes(flag), SlotPos(l, slot'), SlotPos(l, slot') + FLAG_SIZE);
    }
  }

  // ---------------------------------------------------------------------------------------------
  // A block as a sequence of slots
  // ---------------------------------------------------------------------------------------------

  datatype Slot = Slot(flag: int32, row: Row)

  function SlotCount(l: Layout, blocksize: nat): nat {
    if l.slotsize == 0 then 0 else blocksize / l.slotsize
  }

  lemma SlotsBelow(l: Layout, slot: nat, blocksize: nat)
    requires Good(l)
    ensures IsSlot(l, slot, blocksize) <==> slot < SlotCount(l, blocksize)
  {
    var n := SlotCount(l, blocksize);
    Product(slot + 1, n, l.slotsize);
    Product(n + 1, slot + 1, l.slotsize);
    Product(n, n, l.slotsize);
  }

  /** Every field of every slot can be read, and has a fitting value. */
  ghost predicate Formatted(l: Layout, p: seq<byte>) {
    forall slot: nat, f | InPlace(l, p, slot, f) :: FieldFits(l, p, slot, f)
  }

  predicate FieldFits(l: Layout, p: seq<byte>, slot: nat, f: Str) {
    && f in l.offsets && f in l.schema.info
    && var v := ReadField(l, p, slot, f); v.Some? && l.schema.info[f].Fits(v.value)
  }

  ghost function SlotAt(l: Layout, p: seq<byte>, slot: nat): Slot
    requires Good(l) && Formatted(l, p) && IsSlot(l, slot, |p|)
  {
    SlotOrder(l, slot, slot);
    assert forall f | f in l.schema.names :: InPlace(l, p, slot, f);
    Slot(GetInt(p, SlotPos(l, slot)).value, map f | f in l.schema.names :: ReadField(l, p, slot, f).value)
  }

  ghost function Slots(l: Layout, p: seq<byte>): (s: seq<Slot>)
    requires Good(l) && Formatted(l, p)
    ensures |s| == SlotCount(l, |p|)
  {
    seq(SlotCount(l, |p|), k requires 0 <= k < SlotCount(l, |p|) => SlotsBelow(l, k, |p|); SlotAt(l, p, k))
  }

  /** These bytes stand there: four for an int, and the length and the bytes of a string. */
  predicate HasBytes(p: seq<byte>, pos: nat, v: Value) {
    match v
    case IntVal(i) => pos + 4 <= |p| && p[pos..pos + 4] == IntBytes(i)
    case StrVal(s) => |s| < 0x8000_0000 && pos + 4 + |s| <= |p|
                      && p[pos..pos + 4] == IntBytes(|s|) && p[pos + 4..pos + 4 + |s|] == s
  }

  /** The slots stand one behind the other, as many as fit. */
  lemma SlotsFill(l: Layout, p: seq<byte>)
    requires Good(l) && Formatted(l, p)
    ensures |Slots(l, p)| * l.slotsize <= |p| < |Slots(l, p)| * l.slotsize + l.slotsize
  {
    SlotsBelow(l, 0, |p|);
  }

  /** A slot begins with its flag and has the fields of the schema. */
  lemma SlotsMeaning(l: Layout, p: seq<byte>, slot: nat)
    requires Good(l) && Formatted(l, p) && slot < |Slots(l, p)|
    ensures var at, s := slot * l.slotsize, Slots(l, p)[slot];
            && 0 <= at && at + l.slotsize <= |p| && at + 4 <= |p| && p[at..at + 4] == IntBytes(s.flag)
            && s.row.Keys == (set f | f in l.schema.names)
  {
    SlotsBelow(l, slot, |p|);
    SlotOrder(l, slot, slot);
    var at := SlotPos(l, slot);
    BytesRoundTrip(p[at..at + 4]);
  }

  lemma FieldStands(l: Layout, p: seq<byte>, slot: nat, f: Str)
    requires InPlace(l, p, slot, f) && FieldFits(l, p, slot, f)
    ensures HasBytes(p, FieldPos(l, slot, f), ReadField(l, p, slot, f).value)
  {
    hide IntBytes, IntOf, SlotPos;
    var pos := FieldPos(l, slot, f);
    BytesRoundTrip(p[pos..pos + 4]);
  }

  /** A field of a slot is as far behind its beginning as the layout says. */
  lemma FieldsMeaning(l: Layout, p: seq<byte>, slot: nat, f: Str)
    requires Good(l) && Formatted(l, p) && slot < |Slots(l, p)| && f in l.schema.names
    ensures f in Slots(l, p)[slot].row && 0 <= slot * l.slotsize
    ensures HasBytes(p, slot * l.slotsize + l.offsets[f], Slots(l, p)[slot].row[f])
  {
    hide HasBytes, ReadField;
    SlotsBelow(l, slot, |p|);
    assert InPlace(l, p, slot, f) && FieldFits(l, p, slot, f);
    FieldStands(l, p, slot, f);
  }

  lemma SameFieldReads(l: Layout, p: seq<byte>, q: seq<byte>, slot: nat, f: Str)
    requires InPlace(l, p, slot, f) && FieldFits(l, p, slot, f) && SameField(l, p, q, slot, f)
    ensures FieldFits(l, q, slot, f) && ReadField(l, q, slot, f) == ReadField(l, p, slot, f)
  {
    ReadsPlace(l, p, q, slot, f, ReadField(l, p, slot, f).value);
  }

  lemma SameFlagReads(l: Layout, p: seq<byte>, q: seq<byte>, slot: nat)
    requires SameFlag(l, p, q, slot)
    ensures GetInt(q, SlotPos(l, slot)) == GetInt(p, SlotPos(l, slot))
  {}

  /** A slot with the same flag and fields in two blocks. */
  lemma SameSlot(l: Layout, p: seq<byte>, q: seq<byte>, slot: nat)
    requires Good(l) && Formatted(l, p) && Formatted(l, q) && IsSlot(l, slot, |p|) && |p| == |q|
    requires SameFlag(l, p, q, slot) && forall f | f in l.schema.names :: SameField(l, p, q, slot, f)
    ensures SlotAt(l, q, slot) == SlotAt(l, p, slot)
  {
    hide SameField, SameFlag, FieldFits, ReadField;
    SameFlagReads(l, p, q, slot);
    forall f | f in l.schema.names
      ensures ReadField(l, q, slot, f) == ReadField(l, p, slot, f)
    {
      assert InPlace(l, p, slot, f);
      SameFieldReads(l, p, q, slot, f);
    }
  }

  /** Setting a field changes that field of that slot. */
  lemma WriteField(l: Layout, p: seq<byte>, slot: nat, f: Str, v: Value)
    requires Formatted(l, p) && InPlace(l, p, slot, f) && l.schema.info[f].Fits(v)
    ensures FieldPos(l, slot, f) + |FieldBytes(v)| <= |p| && slot < SlotCount(l, |p|)
    ensures var q := Splice(p, FieldPos(l, slot, f), FieldBytes(v));
            && Formatted(l, q)
            && Slots(l, q) == Slots(l, p)[slot := Slot(Slots(l, p)[slot].flag, Slots(l, p)[slot].row[f := v])]
  {
    hide SameField, SameFlag, Splice, FieldPos, SlotPos, FieldFits, IsSlot;
    SlotsBelow(l, slot, |p|);
    FieldIndependence(l, p, slot, f, v);
    var q := Splice(p, FieldPos(l, slot, f), FieldBytes(v));
    forall slot': nat, g | InPlace(l, q, slot', g)
      ensures FieldFits(l, q, slot', g)
    {
      assert InPlace(l, p, slot', g);
      if slot' != slot || f != g {
        SameFieldReads(l, p, q, slot', g);
      } else {
        FitsIntro(l, q, slot, f, v);
      }
    }
    forall k: nat | k < SlotCount(l, |p|)
      ensures Slots(l, q)[k] == Slots(l, p)[slot := Slot(Slots(l, p)[slot].flag, Slots(l, p)[slot].row[f := v])][k]
    {
      SlotsBelow(l, k, |p|);
      if k != slot {
        assert forall g | g in l.schema.names :: InPlace(l, p, k, g);
        SameSlot(l, p, q, k);
      } else {
        WrittenSlot(l, p, q, slot, f, v);
      }
    }
  }

  lemma FitsIntro(l: Layout, q: seq<byte>, slot: nat, f: Str, v: Value)
    requires Good(l) && f in l.schema.names && ReadField(l, q, slot, f) == Some(v) && l.schema.info[f].Fits(v)
    ensures FieldFits(l, q, slot, f)
  {}

  lemma WrittenSlot(l: Layout, p: seq<byte>, q: seq<byte>, slot: nat, f: Str, v: Value)
    requires Formatted(l, p) && Formatted(l, q) && |q| == |p| && InPlace(l, p, slot, f)
    requires ReadField(l, q, slot, f) == Some(v) && SameFlag(l, p, q, slot)
    requires forall g | InPlace(l, p, slot, g) && f != g :: SameField(l, p, q, slot, g)
    ensures SlotAt(l, q, slot) == Slot(SlotAt(l, p, slot).flag, SlotAt(l, p, slot).row[f := v])
  {
    hide SameField, SameFlag, FieldFits, ReadField;
    SameFlagReads(l, p, q, slot);
    forall g | g in l.schema.names && g != f
      ensures ReadField(l, q, slot, g) == ReadField(l, p, slot, g)
    {
      assert InPlace(l, p, slot, g);
      SameFieldReads(l, p, q, slot, g);
    }
  }

  /** Setting a flag changes that flag. */
  lemma WriteFlag(l: Layout, p: seq<byte>, slot: nat, flag: int32)
    requires Good(l) && Formatted(l, p) && IsSlot(l, slot, |p|)
    ensures SlotPos(l, slot) + FLAG_SIZE <= |p| && slot < SlotCount(l, |p|)
    ensures var q := Splice(p, SlotPos(l, slot), IntBytes(flag));
            Formatted(l, q) && Slots(l, q) == Slots(l, p)[slot := Slot(flag, Slots(l, p)[slot].row)]
  {
    hide SameField, SameFlag, Splice, FieldPos, SlotPos, FieldFits, IsSlot;
    SlotsBelow(l, slot, |p|);
    FlagIndependence(l, p, slot, flag);
    var q := Splice(p, SlotPos(l, slot), IntBytes(flag));
    forall slot': nat, g | InPlace(l, q, slot', g)
      ensures FieldFits(l, q, slot', g)
    {
      assert InPlace(l, p, slot', g);
      SameFieldReads(l, p, q, slot', g);
    }
    forall k: nat | k < SlotCount(l, |p|)
      ensures Slots(l, q)[k] == Slots(l, p)[slot := Slot(flag, Slots(l, p)[slot].row)][k]
    {
      SlotsBelow(l, k, |p|);
      assert forall g | g in l.schema.names :: InPlace(l, p, k, g);
      if k != slot {
        SameSlot(l, p, q, k);
      } else {
        FlaggedSlot(l, p, q, slot, flag);
      }
    }
  }

  lemma FlaggedSlot(l: Layout, p: seq<byte>, q: seq<byte>, slot: nat, flag: int32)
    requires Good(l) && Formatted(l, p) && Formatted(l, q) && |q| == |p| && IsSlot(l, slot, |p|)
    requires GetInt(q, SlotPos(l, slot)) == Some(flag)
    requires forall g | g in l.schema.names :: SameField(l, p, q, slot, g)
    ensures SlotAt(l, q, slot) == Slot(flag, SlotAt(l, p, slot).row)
  {
    hide SameField, FieldFits, ReadField;
    forall g | g in l.schema.names
      ensures ReadField(l, q, slot, g) == ReadField(l, p, slot, g)
    {
      assert InPlace(l, p, slot, g);
      SameFieldReads(l, p, q, slot, g);
    }
  }
}

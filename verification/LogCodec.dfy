/**
 The byte formats of the six log records, their writers and the factory that reads them back.
 */
module LogCodec {
  import opened Types
  import opened Pages

  // ---------------------------------------------------------------------------------------------
  // Casts between size_t and int32_t
  // ---------------------------------------------------------------------------------------------

  /** The unsigned values that survive the cast to int32 and back. */
  predicate Survives(n: nat) {
    n < 0x8000_0000 || 0xFFFF_FFFF_8000_0000 <= n < 0x1_0000_0000_0000_0000
  }

  lemma CastRoundTrip(n: nat)
    ensures ToSize(ToInt32(n)) == n <==> Survives(n)
  {}

  // ---------------------------------------------------------------------------------------------
  // Writing
  // ---------------------------------------------------------------------------------------------

  const OP_CHECKPOINT: int32 := 0
  const OP_START: int32 := 1
  const OP_COMMIT: int32 := 2
  const OP_ROLLBACK: int32 := 3
  const OP_SETINT: int32 := 4
  const OP_SETSTRING: int32 := 5

  /** The strings of the record have a length that fits the length field. */
  predicate Encodable(r: LogRecord) {
    && (r.IsSet() ==> FitsLength(r.blk.file))
    && (r.SetString? ==> FitsLength(r.sval))
  }

  function Header(op: int32, tx: nat): seq<byte> {
    IntBytes(op) + IntBytes(ToInt32(tx))
  }

  function UpdateHeader(op: int32, tx: nat, blk: BlockId, offset: nat): seq<byte>
    requires FitsLength(blk.file)
  {
    Header(op, tx) + Blob(blk.file) + IntBytes(blk.num) + IntBytes(ToInt32(offset))
  }

  function Encode(r: LogRecord): seq<byte>
    requires Encodable(r)
  {
    match r
    case Checkpoint => IntBytes(OP_CHECKPOINT)
    case Start(t) => Header(OP_START, t)
    case Commit(t) => Header(OP_COMMIT, t)
    case Rollback(t) => Header(OP_ROLLBACK, t)
    case SetInt(t, blk, off, v) => UpdateHeader(OP_SETINT, t, blk, off) + IntBytes(v)
    case SetString(t, blk, off, s) => UpdateHeader(OP_SETSTRING, t, blk, off) + Blob(s)
  }

  // ---------------------------------------------------------------------------------------------
  // Reading
  // ---------------------------------------------------------------------------------------------

  datatype UpdatePart = UpdatePart(tx: nat, blk: BlockId, offset: nat, vpos: nat)

  /** The fields that both update records begin with, read one after the other. */
  function DecodeUpdate(p: seq<byte>): Option<UpdatePart> {
    var tx, file := GetInt(p, 4), GetBytes(p, 8);
    if tx.None? || file.None? then None
    else
      var bpos := 8 + 4 + |file.value|;
      var num, off := GetInt(p, bpos), GetInt(p, bpos + 4);
      if num.None? || off.None? then None
      else Some(UpdatePart(ToSize(tx.value), BlockId(file.value, num.value), ToSize(off.value), bpos + 8))
  }

  /** `create_log_record`; `None` where the source throws. */
  function Decode(p: seq<byte>): Option<LogRecord> {
    var op := GetInt(p, 0);
    if op.None? then None
    else if op.value == OP_CHECKPOINT then Some(Checkpoint)
    else if op.value == OP_START || op.value == OP_COMMIT || op.value == OP_ROLLBACK then
      var tx := GetInt(p, 4);
      if tx.None? then None
      else
        var t := ToSize(tx.value);
        Some(if op.value == OP_START then Start(t) else if op.value == OP_COMMIT then Commit(t) else Rollback(t))
    else if op.value == OP_SETINT then
      var u := DecodeUpdate(p);
      if u.None? then None
      else
        var v := GetInt(p, u.value.vpos);
        if v.None? then None else Some(SetInt(u.value.tx, u.value.blk, u.value.offset, v.value))
    else if op.value == OP_SETSTRING then
      var u := DecodeUpdate(p);
      if u.None? then None
      else
        var v := GetBytes(p, u.value.vpos);
        if v.None? then None else Some(SetString(u.value.tx, u.value.blk, u.value.offset, v.value))
    else None
  }

  // ---------------------------------------------------------------------------------------------
  // Round trip
  // ---------------------------------------------------------------------------------------------

  lemma IntInside(a: seq<byte>, v: int32, c: seq<byte>)
    ensures GetInt(a + IntBytes(v) + c, |a|) == Some(v)
  {
    assert (a + IntBytes(v) + c)[|a|..|a| + 4] == IntBytes(v);
    IntRoundTrip(v);
  }

  lemma BlobInside(a: seq<byte>, s: seq<byte>, c: seq<byte>)
    requires FitsLength(s)
    ensures GetBytes(a + Blob(s) + c, |a|) == Some(s)
  {
    var p := a + Blob(s) + c;
    assert p == a + IntBytes(|s|) + (s + c);
    IntInside(a, |s|, s + c);
    assert p[|a| + 4..|a| + 4 + |s|] == s;
  }

  /** What the casts make of a record. */
  function Cast(r: LogRecord): LogRecord {
    match r
    case Checkpoint => r
    case Start(t) => Start(ToSize(ToInt32(t)))
    case Commit(t) => Commit(ToSize(ToInt32(t)))
    case Rollback(t) => Rollback(ToSize(ToInt32(t)))
    case SetInt(t, blk, off, v) => SetInt(ToSize(ToInt32(t)), blk, ToSize(ToInt32(off)), v)
    case SetString(t, blk, off, s) => SetString(ToSize(ToInt32(t)), blk, ToSize(ToInt32(off)), s)
  }

  lemma HeaderRead(op: int32, tx: nat, rest: seq<byte>)
    ensures GetInt(Header(op, tx) + rest, 0) == Some(op)
    ensures GetInt(Header(op, tx) + rest, 4) == Some(ToInt32(tx))
  {
    var p := Header(op, tx) + rest;
    assert p == [] + IntBytes(op) + (IntBytes(ToInt32(tx)) + rest);
    IntInside([], op, IntBytes(ToInt32(tx)) + rest);
    assert p == IntBytes(op) + IntBytes(ToInt32(tx)) + rest;
    IntInside(IntBytes(op), ToInt32(tx), rest);
  }

  lemma UpdateRead(op: int32, tx: nat, blk: BlockId, off: nat, rest: seq<byte>)
    requires FitsLength(blk.file)
    ensures var p := UpdateHeader(op, tx, blk, off) + rest;
            && GetInt(p, 0) == Some(op)
            && DecodeUpdate(p) == Some(UpdatePart(ToSize(ToInt32(tx)), blk, ToSize(ToInt32(off)),
                                                  |UpdateHeader(op, tx, blk, off)|))
  {
    hide IntBytes, IntOf, GetInt, GetBytes, ToInt32, ToSize;
    var h, f, n, o := Header(op, tx), Blob(blk.file), IntBytes(blk.num), IntBytes(ToInt32(off));
    var p := UpdateHeader(op, tx, blk, off) + rest;
    assert p == h + (f + n + o + rest);
    HeaderRead(op, tx, f + n + o + rest);
    assert p == h + f + (n + o + rest);
    BlobInside(h, blk.file, n + o + rest);
    assert p == h + f + n + (o + rest);
    IntInside(h + f, blk.num, o + rest);
    assert p == h + f + n + o + rest;
    IntInside(h + f + n, ToInt32(off), rest);
  }

  /** Reading a written record gives the record with its numbers cast to 32 bits and back. */
  lemma DecodeEncode(r: LogRecord)
    requires Encodable(r)
    ensures Decode(Encode(r)) == Some(Cast(r))
  {
    hide IntBytes, IntOf, GetInt, GetBytes, ToInt32, ToSize, DecodeUpdate, UpdateHeader, Header, Blob;
    match r
    case Checkpoint =>
      assert Encode(r) == [] + IntBytes(OP_CHECKPOINT) + [];
      IntInside([], OP_CHECKPOINT, []);
    case Start(t) =>
      assert Header(OP_START, t) + [] == Header(OP_START, t);
      HeaderRead(OP_START, t, []);
    case Commit(t) =>
      assert Header(OP_COMMIT, t) + [] == Header(OP_COMMIT, t);
      HeaderRead(OP_COMMIT, t, []);
    case Rollback(t) =>
      assert Header(OP_ROLLBACK, t) + [] == Header(OP_ROLLBACK, t);
      HeaderRead(OP_ROLLBACK, t, []);
    case SetInt(t, blk, off, v) =>
      UpdateRead(OP_SETINT, t, blk, off, IntBytes(v));
      var h := UpdateHeader(OP_SETINT, t, blk, off);
      assert h + IntBytes(v) == h + IntBytes(v) + [];
      IntInside(h, v, []);
    case SetString(t, blk, off, s) =>
      UpdateRead(OP_SETSTRING, t, blk, off, Blob(s));
      var h := UpdateHeader(OP_SETSTRING, t, blk, off);
      assert h + Blob(s) == h + Blob(s) + [];
      BlobInside(h, s, []);
  }

  /** The transaction number and the offset of the record survive their casts. */
  predicate Representable(r: LogRecord) {
    && (!r.Checkpoint? ==> Survives(r.tx))
    && (r.IsSet() ==> Survives(r.offset))
  }

  /** A record is read back as written exactly when its numbers survive their casts. */
  lemma RoundTrip(r: LogRecord)
    requires Encodable(r)
    ensures Decode(Encode(r)) == Some(r) <==> Representable(r)
  {
    DecodeEncode(r);
    if !r.Checkpoint? {
      CastRoundTrip(r.tx);
    }
    if r.IsSet() {
      CastRoundTrip(r.offset);
    }
  }

  /** The bytes of the records; numbers are cast to 32 bits, and strings have their length in front. */
  lemma RecordBytes(t: nat, blk: BlockId, off: nat, v: int32, s: Str)
    requires FitsLength(blk.file) && FitsLength(s)
    ensures Encode(Checkpoint) == [0, 0, 0, 0]
    ensures var tx := IntBytes(ToInt32(t)); var place := IntBytes(|blk.file|) + blk.file + IntBytes(blk.num);
            && Encode(Start(t)) == [0, 0, 0, 1] + tx
            && Encode(Commit(t)) == [0, 0, 0, 2] + tx
            && Encode(Rollback(t)) == [0, 0, 0, 3] + tx
            && Encode(SetInt(t, blk, off, v)) == [0, 0, 0, 4] + tx + place + IntBytes(ToInt32(off)) + IntBytes(v)
            && Encode(SetString(t, blk, off, s)) ==
                 [0, 0, 0, 5] + tx + place + IntBytes(ToInt32(off)) + IntBytes(|s|) + s
  {
    assert IntBytes(0) == [0, 0, 0, 0] && IntBytes(1) == [0, 0, 0, 1] && IntBytes(2) == [0, 0, 0, 2];
    assert IntBytes(3) == [0, 0, 0, 3] && IntBytes(4) == [0, 0, 0, 4] && IntBytes(5) == [0, 0, 0, 5];
    hide IntBytes, ToInt32;
  }

  // ---------------------------------------------------------------------------------------------
  // The writers fill a page in place
  // ---------------------------------------------------------------------------------------------

  /** Writing at the end of what is filled extends what is filled. */
  lemma FillNext(p: seq<byte>, filled: seq<byte>, data: seq<byte>)
    requires |filled| + |data| <= |p| && p[..|filled|] == filled
    ensures Splice(p, |filled|, data)[..|filled| + |data|] == filled + data
  {}

  method WriteHeader(page: Page, op: int32, txnum: nat)
    requires 8 <= page.bb.Length
    modifies page.bb
    ensures page.bb[..8] == Header(op, txnum)
  {
    hide IntBytes, Splice, ToInt32;
    ghost var p := page.bb[..];
    var ok := page.SetInt(0, op);
    FillNext(p, [], IntBytes(op));
    p := page.bb[..];
    ok := page.SetInt(4, ToInt32(txnum));
    FillNext(p, IntBytes(op), IntBytes(ToInt32(txnum)));
  }

  method WriteUpdateHeader(page: Page, op: int32, txnum: nat, blk: BlockId, offset: nat) returns (vpos: nat)
    requires FitsLength(blk.file) && 8 + 4 + |blk.file| + 8 <= page.bb.Length
    modifies page.bb
    ensures vpos == |UpdateHeader(op, txnum, blk, offset)|
    ensures page.bb[..vpos] == UpdateHeader(op, txnum, blk, offset)
  {
    hide IntBytes, Splice, ToInt32, Header;
    WriteHeader(page, op, txnum);
    var bpos := 8 + 4 + |blk.file|;
    var opos := bpos + 4;
    vpos := opos + 4;
    ghost var p, h := page.bb[..], Header(op, txnum);
    assert |h| == 8;
    var ok := page.SetBytes(8, blk.file);
    FillNext(p, h, Blob(blk.file));
    p, h := page.bb[..], h + Blob(blk.file);
    ok := page.SetInt(bpos, blk.num);
    FillNext(p, h, IntBytes(blk.num));
    p, h := page.bb[..], h + IntBytes(blk.num);
    ok := page.SetInt(opos, ToInt32(offset));
    FillNext(p, h, IntBytes(ToInt32(offset)));
  }

  /** The bytes of a SETINT record, as `SetIntRecord::write_to_log` builds them. */
  method SetIntBytes(txnum: nat, blk: BlockId, offset: nat, val: int32) returns (rec: seq<byte>)
    requires FitsLength(blk.file)
    ensures rec == Encode(SetInt(txnum, blk, offset, val))
  {
    hide IntBytes, Splice, UpdateHeader;
    var page := new Page(8 + 4 + |blk.file| + 8 + 4);
    var vpos := WriteUpdateHeader(page, OP_SETINT, txnum, blk, offset);
    UpdateHeaderLength(OP_SETINT, txnum, blk, offset);
    ghost var p := page.bb[..];
    var ok := page.SetInt(vpos, val);
    FillNext(p, UpdateHeader(OP_SETINT, txnum, blk, offset), IntBytes(val));
    rec := page.bb[..];
  }

  /** The bytes of a SETSTRING record, as `SetStringRecord::write_to_log` builds them. */
  method SetStringBytes(txnum: nat, blk: BlockId, offset: nat, val: Str) returns (rec: seq<byte>)
    requires FitsLength(blk.file) && FitsLength(val)
    ensures rec == Encode(SetString(txnum, blk, offset, val))
  {
    hide IntBytes, Splice, UpdateHeader;
    var page := new Page(8 + 4 + |blk.file| + 8 + 4 + |val|);
    var vpos := WriteUpdateHeader(page, OP_SETSTRING, txnum, blk, offset);
    UpdateHeaderLength(OP_SETSTRING, txnum, blk, offset);
    ghost var p := page.bb[..];
    var ok := page.SetBytes(vpos, val);
    FillNext(p, UpdateHeader(OP_SETSTRING, txnum, blk, offset), Blob(val));
    rec := page.bb[..];
  }

  lemma UpdateHeaderLength(op: int32, tx: nat, blk: BlockId, off: nat)
    requires FitsLength(blk.file)
    ensures |UpdateHeader(op, tx, blk, off)| == 8 + 4 + |blk.file| + 8
  {}

  /** The bytes of a START, COMMIT or ROLLBACK record. */
  method StatusBytes(op: int32, txnum: nat) returns (rec: seq<byte>)
    ensures rec == Header(op, txnum)
  {
    var page := new Page(8);
    WriteHeader(page, op, txnum);
    assert page.bb[..] == page.bb[..8];
    rec := page.bb[..];
  }

  method CheckpointBytes() returns (rec: seq<byte>)
    ensures rec == Encode(Checkpoint)
  {
    var page := new Page(4);
    var ok := page.SetInt(0, OP_CHECKPOINT);
    rec := page.bb[..];
  }
}

/**
 `log::LogMgr` and `log::LogIterator` at the level of bytes. Records are packed from the end of a page
 towards its beginning; the first four bytes say where the newest one starts.
 */
module Logs {
  import opened Types
  import opened Pages

  // ---------------------------------------------------------------------------------------------
  // What the bytes of a log page and of a log file say
  // ---------------------------------------------------------------------------------------------

  /** The records from position `pos` to the end of the page, oldest first. */
  function RecordsFrom(p: seq<byte>, pos: nat): seq<seq<byte>>
    decreases |p| - pos
  {
    if pos >= |p| || GetBytes(p, pos).None? then []
    else
      var r := GetBytes(p, pos).value;
      RecordsFrom(p, pos + 4 + |r|) + [r]
  }

  /** From `pos` on, the page is packed with records up to its very end. */
  predicate PackedFrom(p: seq<byte>, pos: nat)
    decreases |p| - pos
  {
    pos == |p| || (pos < |p| && GetBytes(p, pos).Some? && PackedFrom(p, pos + 4 + |GetBytes(p, pos).value|))
  }

  /** The position of the newest record, kept in the first four bytes. */
  function Boundary(p: seq<byte>): nat {
    var b := GetInt(p, 0);
    if b.Some? && b.value >= 0 then b.value else |p|
  }

  predicate PageOk(p: seq<byte>) {
    && 8 <= |p| < 0x8000_0000
    && GetInt(p, 0) == Some(Boundary(p))
    && 4 <= Boundary(p) <= |p|
    && PackedFrom(p, Boundary(p))
  }

  function PageRecords(p: seq<byte>): seq<seq<byte>> {
    RecordsFrom(p, Boundary(p))
  }

  /** All records in the blocks of a log file, oldest first. */
  function FileRecords(blocks: seq<seq<byte>>): seq<seq<byte>> {
    if blocks == [] then []
    else FileRecords(blocks[..|blocks| - 1]) + PageRecords(blocks[|blocks| - 1])
  }

  /** Blocks have one size and are well formed, and none but the last is empty. */
  ghost predicate FileOk(blocks: seq<seq<byte>>, blocksize: nat) {
    && blocks != []
    && (forall i | 0 <= i < |blocks| :: |blocks[i]| == blocksize && PageOk(blocks[i]))
    && (forall i | 0 <= i < |blocks| - 1 :: PageRecords(blocks[i]) != [])
  }

  /** The bytes below `pos` do not matter for the records from `pos` on. */
  lemma {:induction false} RecordsLocal(p: seq<byte>, q: seq<byte>, pos: nat)
    requires |p| == |q| && pos <= |p| && p[pos..] == q[pos..]
    ensures RecordsFrom(p, pos) == RecordsFrom(q, pos) && (PackedFrom(p, pos) <==> PackedFrom(q, pos))
    decreases |p| - pos
  {
    BlobLocal(p, q, pos);
    var r := GetBytes(p, pos);
    if pos < |p| && r.Some? {
      var next := pos + 4 + |r.value|;
      assert p[next..] == p[pos..][next - pos..];
      assert q[next..] == q[pos..][next - pos..];
      RecordsLocal(p, q, next);
    }
  }

  lemma {:induction false} RecordsEmpty(p: seq<byte>, pos: nat)
    requires PackedFrom(p, pos)
    ensures RecordsFrom(p, pos) == [] <==> pos == |p|
  {}

  // ---------------------------------------------------------------------------------------------
  // The log manager as functions on its state
  // ---------------------------------------------------------------------------------------------

  /** Blocks on disk, the page in memory for the last block, and the two sequence numbers. */
  datatype LogState = LogState(blocks: seq<seq<byte>>, page: seq<byte>, latest: nat, saved: nat)

  predicate Fits(rec: seq<byte>, blocksize: nat) {
    |rec| + 8 <= blocksize
  }

  ghost predicate LogOk(s: LogState) {
    && FileOk(s.blocks, |s.page|)
    && PageOk(s.page)
    && var onDisk, inMemory := PageRecords(s.blocks[|s.blocks| - 1]), PageRecords(s.page);
    && onDisk <= inMemory
    && s.latest == s.saved + |inMemory| - |onDisk|
  }

  /** Every record appended, whether on disk or only in memory. */
  function AllRecords(s: LogState): seq<seq<byte>>
    requires s.blocks != []
  {
    FileRecords(s.blocks[..|s.blocks| - 1]) + PageRecords(s.page)
  }

  function FlushedState(s: LogState): LogState
    requires s.blocks != []
  {
    s.(blocks := s.blocks[|s.blocks| - 1 := s.page], saved := s.latest)
  }

  /** A page with no records: only the boundary is rewritten, stale bytes stay. */
  function EmptyPage(p: seq<byte>): seq<byte>
    requires 4 <= |p| < 0x8000_0000
  {
    Splice(p, 0, IntBytes(|p|))
  }

  function NewBlockState(s: LogState): LogState
    requires 4 <= |s.page| < 0x8000_0000
  {
    s.(blocks := s.blocks + [EmptyPage(s.page)], page := EmptyPage(s.page))
  }

  /** There is no room for the record and its length above the boundary field. */
  predicate Full(p: seq<byte>, rec: seq<byte>) {
    Boundary(p) - (|rec| + 4) < 4
  }

  function Packed(p: seq<byte>, rec: seq<byte>): seq<byte>
    requires PageOk(p) && FitsLength(rec) && !Full(p, rec)
  {
    var pos := Boundary(p) - (|rec| + 4);
    Splice(Splice(p, pos, Blob(rec)), 0, IntBytes(pos))
  }

  function Roomy(s: LogState, rec: seq<byte>): LogState
    requires LogOk(s)
  {
    if Full(s.page, rec) then NewBlockState(FlushedState(s)) else s
  }

  lemma EmptyPageOk(p: seq<byte>)
    requires 8 <= |p| < 0x8000_0000
    ensures PageOk(EmptyPage(p)) && PageRecords(EmptyPage(p)) == [] && Boundary(EmptyPage(p)) == |p|
  {
    IntReadsBack(p, 0, |p|);
  }

  /** The record and its length stand just below the older records. */
  lemma PackedRecord(p: seq<byte>, rec: seq<byte>, q: seq<byte>, pos: nat)
    requires PageOk(p) && FitsLength(rec) && pos + 4 + |rec| == Boundary(p) && 4 <= pos
    requires q == Splice(p, pos, Blob(rec))
    ensures PackedFrom(q, pos) && RecordsFrom(q, pos) == PageRecords(p) + [rec]
  {
    var b := Boundary(p);
    BlobReadsBack(p, pos, rec);
    assert q[b..] == p[b..];
    RecordsLocal(p, q, b);
  }

  /** Packing a record puts it after all others and keeps the page well formed. */
  lemma PackedOk(p: seq<byte>, rec: seq<byte>)
    requires PageOk(p) && FitsLength(rec) && !Full(p, rec)
    ensures PageOk(Packed(p, rec)) && PageRecords(Packed(p, rec)) == PageRecords(p) + [rec]
  {
    hide RecordsFrom, PackedFrom, GetBytes;
    var pos := Boundary(p) - (|rec| + 4);
    var q := Splice(p, pos, Blob(rec));
    var r := Splice(q, 0, IntBytes(pos));
    PackedRecord(p, rec, q, pos);
    IntReadsBack(q, 0, pos);
    assert q[pos..] == r[pos..];
    RecordsLocal(q, r, pos);
  }

  lemma FlushedOk(s: LogState)
    requires LogOk(s)
    ensures LogOk(FlushedState(s)) && AllRecords(FlushedState(s)) == AllRecords(s)
    ensures FileRecords(FlushedState(s).blocks) == AllRecords(s)
  {
    var s' := FlushedState(s);
    assert s'.blocks[..|s.blocks| - 1] == s.blocks[..|s.blocks| - 1];
  }

  /** Records on disk are the first ones appended, and the sequence numbers count the others. */
  lemma SavedPrefix(s: LogState)
    requires LogOk(s)
    ensures FileRecords(s.blocks) <= AllRecords(s)
    ensures |AllRecords(s)| == |FileRecords(s.blocks)| + s.latest - s.saved && s.saved <= s.latest
  {}

  lemma RoomyOk(s: LogState, rec: seq<byte>)
    requires LogOk(s) && Fits(rec, |s.page|)
    ensures var m := Roomy(s, rec);
            && LogOk(m) && AllRecords(m) == AllRecords(s) && |m.page| == |s.page|
            && !Full(m.page, rec) && FitsLength(rec)
    ensures FileRecords(Roomy(s, rec).blocks) == if Full(s.page, rec) then AllRecords(s) else FileRecords(s.blocks)
  {
    if Full(s.page, rec) {
      FlushedOk(s);
      var f, m := FlushedState(s), Roomy(s, rec);
      EmptyPageOk(s.page);
      RecordsEmpty(s.page, Boundary(s.page));
      assert m.blocks[..|m.blocks| - 1] == f.blocks;
    }
  }

  function AppendState(s: LogState, rec: seq<byte>): LogState
    requires LogOk(s) && Fits(rec, |s.page|)
  {
    RoomyOk(s, rec);
    var m := Roomy(s, rec);
    m.(page := Packed(m.page, rec), latest := m.latest + 1)
  }

  /** Appending adds one record at the end; what was on disk stays, and a full page goes to disk first. */
  lemma AppendOk(s: LogState, rec: seq<byte>)
    requires LogOk(s) && Fits(rec, |s.page|)
    ensures var s' := AppendState(s, rec);
            && LogOk(s') && |s'.page| == |s.page|
            && AllRecords(s') == AllRecords(s) + [rec]
            && FileRecords(s'.blocks) == (if Full(s.page, rec) then AllRecords(s) else FileRecords(s.blocks))
            && s'.latest == s.latest + 1
            && s'.saved == (if Full(s.page, rec) then s.latest else s.saved)
  {
    hide FileOk, PageOk, PageRecords, Full, Packed, FlushedState, NewBlockState;
    RoomyOk(s, rec);
    RoomySequence(s, rec);
    PackedPage(Roomy(s, rec), rec);
  }

  /** The bytes that records take on a page, each with its length in front. */
  function BytesOf(recs: seq<seq<byte>>): nat {
    if recs == [] then 0 else BytesOf(recs[..|recs| - 1]) + 4 + |recs[|recs| - 1]|
  }

  lemma {:induction false} PackedBytes(p: seq<byte>, pos: nat)
    requires PackedFrom(p, pos) && pos <= |p|
    ensures BytesOf(RecordsFrom(p, pos)) == |p| - pos
    decreases |p| - pos
  {
    if pos < |p| {
      var r := GetBytes(p, pos).value;
      var newer := RecordsFrom(p, pos + 4 + |r|);
      PackedBytes(p, pos + 4 + |r|);
      assert (newer + [r])[..|newer|] == newer;
    }
  }

  /** The boundary counts the bytes of the records on the page. */
  lemma PageBytes(p: seq<byte>)
    requires PageOk(p)
    ensures BytesOf(PageRecords(p)) == |p| - Boundary(p)
  {
    PackedBytes(p, Boundary(p));
  }

  lemma BytesOfSnoc(recs: seq<seq<byte>>, rec: seq<byte>)
    ensures BytesOf(recs + [rec]) == BytesOf(recs) + 4 + |rec|
  {
    assert (recs + [rec])[..|recs|] == recs;
  }

  /** The record with its length stands where all records on the page end, counted from the end of the page. */
  ghost predicate StandsAt(p: seq<byte>, recs: seq<seq<byte>>, rec: seq<byte>) {
    && 4 <= |p| - BytesOf(recs) <= |p| - 4 - |rec|
    && var pos := |p| - BytesOf(recs);
    && FitsLength(rec) && pos < 0x8000_0000
    && p[..4] == IntBytes(pos) && p[pos..pos + 4] == IntBytes(|rec|) && p[pos + 4..pos + 4 + |rec|] == rec
  }

  /**
   A record goes to the page if there is room for it, for its length, and for the boundary; nothing is written then. If
   there is not, the page is written, with all older records, and the record is the first one of one more block.
   */
  lemma AppendRoom(s: LogState, rec: seq<byte>)
    requires LogOk(s) && Fits(rec, |s.page|)
    ensures var s' := AppendState(s, rec);
            && (if 4 + BytesOf(PageRecords(s.page)) + (4 + |rec|) <= |s.page|
                then s'.blocks == s.blocks && s'.saved == s.saved && PageRecords(s'.page) == PageRecords(s.page) + [rec]
                else && |s'.blocks| == |s.blocks| + 1 && s'.blocks[..|s.blocks| - 1] == s.blocks[..|s.blocks| - 1]
                     && s'.blocks[|s.blocks| - 1] == s.page && PageRecords(s'.blocks[|s.blocks|]) == []
                     && s'.saved == s.latest && PageRecords(s'.page) == [rec])
            && |s'.page| == |s.page| && StandsAt(s'.page, PageRecords(s'.page), rec)
  {
    hide LogOk, PageRecords, StandsAt, BytesOf, Full, Packed, Roomy, PackedFrom;
    AppendOk(s, rec);
    RoomyOk(s, rec);
    RoomyBlocks(s, rec);
    PackedLast(Roomy(s, rec).page, rec);
  }

  lemma RoomyBlocks(s: LogState, rec: seq<byte>)
    requires LogOk(s)
    ensures var m := Roomy(s, rec);
            && PageOk(m.page)
            && if 4 + BytesOf(PageRecords(s.page)) + (4 + |rec|) <= |s.page|
               then m == s
               else && |m.blocks| == |s.blocks| + 1 && m.blocks[..|s.blocks| - 1] == s.blocks[..|s.blocks| - 1]
                    && m.blocks[|s.blocks| - 1] == s.page && PageRecords(m.blocks[|s.blocks|]) == []
                    && m.saved == s.latest && PageRecords(m.page) == []
  {
    assert s.blocks != [] && PageOk(s.page);
    hide LogOk, FileRecords, PageRecords, RecordsFrom, PackedFrom, EmptyPage;
    PageBytes(s.page);
    EmptyPageOk(s.page);
    if Full(s.page, rec) {
      var f := FlushedState(s);
      assert (f.blocks + [EmptyPage(s.page)])[..|s.blocks| - 1] == s.blocks[..|s.blocks| - 1];
    }
  }

  lemma PackedLast(p: seq<byte>, rec: seq<byte>)
    requires PageOk(p) && FitsLength(rec) && !Full(p, rec)
    ensures PageRecords(Packed(p, rec)) == PageRecords(p) + [rec]
    ensures PageRecords(p) == [] ==> PageRecords(Packed(p, rec)) == [rec]
    ensures StandsAt(Packed(p, rec), PageRecords(Packed(p, rec)), rec)
  {
    hide PackedFrom, PageRecords, IntBytes, GetInt, GetBytes, Splice;
    PackedOk(p, rec);
    PackedStands(p, rec);
    PageBytes(p);
    BytesOfSnoc(PageRecords(p), rec);
  }

  lemma PackedStands(p: seq<byte>, rec: seq<byte>)
    requires PageOk(p) && FitsLength(rec) && !Full(p, rec)
    ensures var pos, q := Boundary(p) - (|rec| + 4), Packed(p, rec);
            && q[..4] == IntBytes(pos) && q[pos..pos + 4] == IntBytes(|rec|) && q[pos + 4..pos + 4 + |rec|] == rec
  {
    hide PackedFrom, IntBytes;
    var pos := Boundary(p) - (|rec| + 4);
    var q := Splice(p, pos, Blob(rec));
    var r := Splice(q, 0, IntBytes(pos));
    ReadsBack(p, pos, Blob(rec));
    assert q[pos..pos + 4] == q[pos..pos + |Blob(rec)|][..4] == IntBytes(|rec|);
    assert q[pos + 4..pos + 4 + |rec|] == q[pos..pos + |Blob(rec)|][4..] == rec;
    WritesNothingElse(q, 0, IntBytes(pos), pos, pos + 4);
    WritesNothingElse(q, 0, IntBytes(pos), pos + 4, pos + 4 + |rec|);
    ReadsBack(q, 0, IntBytes(pos));
  }

  lemma RoomySequence(s: LogState, rec: seq<byte>)
    requires LogOk(s)
    ensures Roomy(s, rec).latest == s.latest
    ensures Roomy(s, rec).saved == if Full(s.page, rec) then s.latest else s.saved
  {}

  lemma PackedPage(m: LogState, rec: seq<byte>)
    requires LogOk(m) && FitsLength(rec) && !Full(m.page, rec)
    ensures var s' := m.(page := Packed(m.page, rec), latest := m.latest + 1);
            LogOk(s') && |s'.page| == |m.page| && AllRecords(s') == AllRecords(m) + [rec]
  {
    hide RecordsFrom, PackedFrom, GetBytes, Boundary, GetInt, FileRecords, PageRecords;
    PackedOk(m.page, rec);
  }

  function FlushState(s: LogState, lsn: nat): LogState
    requires s.blocks != []
  {
    if lsn >= s.saved then FlushedState(s) else s
  }

  function FreshState(blocksize: nat): LogState
    requires 8 <= blocksize < 0x8000_0000
  {
    var p := EmptyPage(seq(blocksize, _ => 0));
    LogState([p], p, 0, 0)
  }

  /** A new process finds the blocks on disk and loads the last one. */
  function RestartState(blocks: seq<seq<byte>>): LogState
    requires blocks != []
  {
    LogState(blocks, blocks[|blocks| - 1], 0, 0)
  }

  lemma RestartOk(blocks: seq<seq<byte>>, blocksize: nat)
    requires FileOk(blocks, blocksize)
    ensures LogOk(RestartState(blocks)) && AllRecords(RestartState(blocks)) == FileRecords(blocks)
  {
    hide PageRecords, PageOk;
  }

  // ---------------------------------------------------------------------------------------------
  // Runs of the log manager
  // ---------------------------------------------------------------------------------------------

  datatype LogOp = Append(rec: seq<byte>) | Flush(lsn: nat) | Restart

  /** What clients can know: all surviving records, and how many of them are on disk. */
  datatype RecordList = RecordList(records: seq<seq<byte>>, durable: nat)

  function OpState(s: LogState, op: LogOp): LogState
    requires LogOk(s) && (op.Append? ==> Fits(op.rec, |s.page|))
  {
    match op
    case Append(rec) => AppendState(s, rec)
    case Flush(lsn) => FlushState(s, lsn)
    case Restart => RestartState(s.blocks)
  }

  ghost predicate ValidOps(s: LogState, ops: seq<LogOp>)
    decreases |ops|
  {
    && LogOk(s)
    && (ops == [] || ((ops[0].Append? ==> Fits(ops[0].rec, |s.page|)) && ValidOps(OpState(s, ops[0]), ops[1..])))
  }

  ghost function ExecOps(s: LogState, ops: seq<LogOp>): LogState
    requires ValidOps(s, ops)
    decreases |ops|
  {
    if ops == [] then s else ExecOps(OpState(s, ops[0]), ops[1..])
  }

  /** One operation on the sequence of records. */
  ghost predicate ListStep(j: RecordList, op: LogOp, j': RecordList) {
    match op
    case Append(rec) => j'.records == j.records + [rec] && (j'.durable == j.durable || j'.durable == |j.records|)
    case Flush(_) => j'.records == j.records && (j'.durable == j.durable || j'.durable == |j.records|)
    case Restart => j.durable <= |j.records| && j'.records == j.records[..j.durable] && j'.durable == j.durable
  }

  ghost function RecordsOf(s: LogState): RecordList
    requires LogOk(s)
  {
    RecordList(AllRecords(s), |FileRecords(s.blocks)|)
  }

  /** The operations on bytes are operations on a sequence of records; a crash keeps a prefix. */
  lemma OpRefines(s: LogState, op: LogOp)
    requires LogOk(s) && (op.Append? ==> Fits(op.rec, |s.page|))
    ensures LogOk(OpState(s, op)) && |OpState(s, op).page| == |s.page|
    ensures ListStep(RecordsOf(s), op, RecordsOf(OpState(s, op)))
  {
    SavedPrefix(s);
    match op
    case Append(rec) => AppendOk(s, rec);
    case Flush(_) => FlushedOk(s);
    case Restart => RestartOk(s.blocks, |s.page|);
  }

  ghost predicate StepRefines(s: LogState, op: LogOp) {
    && LogOk(s) && (op.Append? ==> Fits(op.rec, |s.page|))
    && LogOk(OpState(s, op))
    && ListStep(RecordsOf(s), op, RecordsOf(OpState(s, op)))
  }

  ghost predicate Refines(s: LogState, ops: seq<LogOp>)
    decreases |ops|
  {
    ops == [] || (StepRefines(s, ops[0]) && Refines(OpState(s, ops[0]), ops[1..]))
  }

  predicate FittingOps(ops: seq<LogOp>, blocksize: nat) {
    forall k | 0 <= k < |ops| && ops[k].Append? :: Fits(ops[k].rec, blocksize)
  }

  /**
   Any sequence of appends, flushes and crashes: the bytes always stand for a list of records on which each
   operation did what it should, and the blocks on disk hold a prefix of that list.
   */
  lemma {:induction false} RunsRefine(s: LogState, ops: seq<LogOp>)
    requires LogOk(s) && FittingOps(ops, |s.page|)
    ensures ValidOps(s, ops) && Refines(s, ops)
    ensures LogOk(ExecOps(s, ops)) && FileRecords(ExecOps(s, ops).blocks) <= AllRecords(ExecOps(s, ops))
    decreases |ops|
  {
    hide LogOk, OpState, AllRecords, FileRecords, ListStep, RecordsOf;
    if ops == [] {
      SavedPrefix(s);
    } else {
      OpRefines(s, ops[0]);
      RunsRefine(OpState(s, ops[0]), ops[1..]);
    }
  }

  lemma FreshOk(blocksize: nat)
    requires 8 <= blocksize < 0x8000_0000
    ensures LogOk(FreshState(blocksize)) && AllRecords(FreshState(blocksize)) == []
    ensures |FreshState(blocksize).page| == blocksize
  {
    EmptyPageOk(seq(blocksize, _ => 0));
  }

  // ---------------------------------------------------------------------------------------------
  // The classes
  // ---------------------------------------------------------------------------------------------

  /** `FileMgr` restricted to the log file: a file that grows by whole blocks. */
  class LogFile {
    const blocksize: nat
    var blocks: seq<seq<byte>>

    constructor (blocksize: nat)
      ensures this.blocksize == blocksize && blocks == []
    {
      this.blocksize := blocksize;
      blocks := [];
    }

    method Read(i: nat, page: Page)
      requires i < |blocks| && |blocks[i]| == page.bb.Length
      modifies page.bb
      ensures page.bb[..] == blocks[i]
    {
      page.Copy(0, blocks[i]);
    }

    method Write(i: nat, page: Page)
      requires i < |blocks|
      modifies this
      ensures blocks == old(blocks)[i := page.bb[..]]
    {
      blocks := blocks[i := page.bb[..]];
    }

    /** Adds a block of zeros. */
    method Append() returns (i: nat)
      modifies this
      ensures i == |old(blocks)| && blocks == old(blocks) + [seq(blocksize, _ => 0)]
    {
      i := |blocks|;
      blocks := blocks + [seq(blocksize, _ => 0)];
    }
  }

  class LogMgr {
    const file: LogFile
    const logpage: Page
    var currentblk: nat
    var latestLsn: nat
    var lastSavedLsn: nat

    ghost function State(): LogState
      reads this, file, logpage.bb
    {
      LogState(file.blocks, logpage.bb[..], latestLsn, lastSavedLsn)
    }

    ghost predicate Valid()
      reads this, file, logpage.bb
    {
      && LogOk(State())
      && file.blocksize == logpage.bb.Length
      && currentblk == |file.blocks| - 1
    }

    /** Formats a first block for a new log file, or loads the last block of an existing one. */
    constructor (file: LogFile)
      requires 8 <= file.blocksize < 0x8000_0000
      requires file.blocks != [] ==> FileOk(file.blocks, file.blocksize)
      modifies file
      ensures Valid() && fresh(logpage) && fresh(logpage.bb) && this.file == file
      ensures State() == if old(file.blocks) == [] then FreshState(file.blocksize) else RestartState(old(file.blocks))
    {
      hide RecordsFrom, PackedFrom, GetBytes, Boundary, GetInt, PageRecords, FileRecords;
      this.file := file;
      logpage := new Page(file.blocksize);
      latestLsn, lastSavedLsn := 0, 0;
      currentblk := 0;
      new;
      if |file.blocks| == 0 {
        assert logpage.bb[..] == seq(file.blocksize, _ => 0);
        currentblk := AppendNewBlock();
        FreshOk(file.blocksize);
      } else {
        currentblk := |file.blocks| - 1;
        file.Read(currentblk, logpage);
        RestartOk(file.blocks, file.blocksize);
      }
    }

    method AppendNewBlock() returns (blk: nat)
      requires 8 <= file.blocksize == logpage.bb.Length < 0x8000_0000
      modifies file, logpage.bb
      ensures blk == |old(file.blocks)|
      ensures logpage.bb[..] == EmptyPage(old(logpage.bb[..]))
      ensures file.blocks == old(file.blocks) + [EmptyPage(old(logpage.bb[..]))]
    {
      blk := file.Append();
      var ok := logpage.SetInt(0, file.blocksize);
      file.Write(blk, logpage);
    }

    method FlushImpl()
      requires Valid()
      modifies this, file
      ensures Valid() && State() == FlushedState(old(State()))
    {
      FlushedOk(State());
      file.Write(currentblk, logpage);
      lastSavedLsn := latestLsn;
    }

    /** Flushes the page and starts a new block when the record does not fit; gives the boundary. */
    method MakeRoom(logrec: seq<byte>) returns (boundary: nat)
      requires Valid() && Fits(logrec, file.blocksize)
      modifies this, file, logpage.bb
      ensures Valid() && State() == Roomy(old(State()), logrec)
      ensures latestLsn == old(latestLsn) && boundary == Boundary(logpage.bb[..])
    {
      hide FileOk, RecordsFrom, PackedFrom, GetBytes, FileRecords, PageRecords;
      ghost var s := State();
      RoomyOk(s, logrec);
      var b := logpage.ReadInt(0);
      boundary := b.value;
      if boundary - (|logrec| + 4) < 4 {
        FlushImpl();
        EmptyPageOk(s.page);
        currentblk := AppendNewBlock();
        b := logpage.ReadInt(0);
        boundary := b.value;
      }
    }

    method Append(logrec: seq<byte>) returns (lsn: nat)
      requires Valid() && Fits(logrec, file.blocksize)
      modifies this, file, logpage.bb
      ensures Valid() && State() == AppendState(old(State()), logrec)
      ensures lsn == latestLsn == old(latestLsn) + 1
      ensures var n, page := |old(file.blocks)|, old(PageRecords(logpage.bb[..]));
              if 4 + BytesOf(page) + (4 + |logrec|) <= file.blocksize
              then && file.blocks == old(file.blocks) && lastSavedLsn == old(lastSavedLsn)
                   && PageRecords(logpage.bb[..]) == page + [logrec]
              else && |file.blocks| == n + 1 && file.blocks[..n - 1] == old(file.blocks)[..n - 1]
                   && file.blocks[n - 1] == old(logpage.bb[..]) && PageRecords(file.blocks[n]) == []
                   && lastSavedLsn == old(latestLsn) && PageRecords(logpage.bb[..]) == [logrec]
      ensures StandsAt(logpage.bb[..], PageRecords(logpage.bb[..]), logrec)
    {
      hide FileOk, RecordsFrom, PackedFrom, GetBytes, FileRecords, PageRecords, Splice, IntBytes, IntOf;
      hide StandsAt, BytesOf;
      ghost var s := State();
      AppendOk(s, logrec);
      RoomyOk(s, logrec);
      hide LogOk, Roomy;
      var boundary := MakeRoom(logrec);
      var recpos := boundary - (|logrec| + 4);
      var ok := logpage.SetBytes(recpos, logrec);
      ok := logpage.SetInt(0, recpos);
      assert logpage.bb[..] == Packed(Roomy(s, logrec).page, logrec);
      latestLsn := latestLsn + 1;
      lsn := latestLsn;
      AppendRoom(s, logrec);
    }

    method Flush(lsn: nat)
      requires Valid()
      modifies this, file
      ensures Valid() && State() == FlushState(old(State()), lsn)
      ensures if lsn < old(lastSavedLsn) then file.blocks == old(file.blocks) && lastSavedLsn == old(lastSavedLsn)
              else file.blocks == old(file.blocks)[currentblk := logpage.bb[..]] && lastSavedLsn == latestLsn
    {
      if lsn >= lastSavedLsn {
        FlushImpl();
      }
    }

    /** An iterator over everything appended so far; the log is on disk when it starts. */
    method Iterator() returns (iter: LogIterator)
      requires Valid()
      modifies this, file
      ensures Valid() && State() == FlushedState(old(State()))
      ensures fresh(iter) && fresh(iter.page) && fresh(iter.page.bb) && iter.file == file && iter.Valid()
      ensures iter.Remaining() == AllRecords(old(State())) == AllRecords(State())
    {
      hide RecordsFrom, PackedFrom, GetBytes, Boundary, GetInt, PageRecords, FileRecords;
      FlushedOk(State());
      FlushImpl();
      iter := new LogIterator(file, currentblk);
      assert file.blocks[..|file.blocks|] == file.blocks;
    }
  }

  class LogIterator {
    const file: LogFile
    const page: Page
    var blk: nat
    var currentpos: nat

    ghost predicate Valid()
      reads this, file, page.bb
    {
      && blk < |file.blocks| && page.bb.Length == file.blocksize
      && PackedFrom(page.bb[..], currentpos)
      && (forall i | 0 <= i < blk ::
            |file.blocks[i]| == file.blocksize && PageOk(file.blocks[i]) && PageRecords(file.blocks[i]) != [])
    }

    /** The records still to come, oldest first: the iterator takes them from the end. */
    ghost function Remaining(): seq<seq<byte>>
      requires Valid()
      reads this, file, page.bb
    {
      FileRecords(file.blocks[..blk]) + RecordsFrom(page.bb[..], currentpos)
    }

    constructor (file: LogFile, blk: nat)
      requires blk < |file.blocks| && FileOk(file.blocks, file.blocksize)
      ensures Valid() && fresh(page) && fresh(page.bb) && this.file == file
      ensures Remaining() == FileRecords(file.blocks[..blk + 1])
    {
      this.file := file;
      this.blk := blk;
      currentpos := 0;
      page := new Page(file.blocksize);
      new;
      MoveToBlock(blk);
      assert file.blocks[..blk + 1][..blk] == file.blocks[..blk];
    }

    method MoveToBlock(b: nat)
      requires b < |file.blocks| && page.bb.Length == file.blocksize == |file.blocks[b]|
      requires PageOk(file.blocks[b])
      modifies this`currentpos, page.bb
      ensures page.bb[..] == file.blocks[b] && currentpos == Boundary(file.blocks[b])
    {
      file.Read(b, page);
      var boundary := page.ReadInt(0);
      currentpos := boundary.value;
    }

    method HasNext() returns (more: bool)
      requires Valid()
      ensures more <==> Remaining() != []
    {
      RecordsEmpty(page.bb[..], currentpos);
      if blk > 0 {
        assert file.blocks[..blk][blk - 1] == file.blocks[blk - 1];
      }
      more := currentpos < file.blocksize || blk > 0;
    }

    /** The newest record still to come; `None` where the source throws. */
    method Next() returns (record: Option<seq<byte>>)
      requires Valid()
      modifies this, page.bb
      ensures Valid()
      ensures record.None? <==> old(Remaining()) == []
      ensures record.None? ==> Remaining() == []
      ensures record.Some? ==> old(Remaining()) == Remaining() + [record.value]
    {
      hide Boundary, GetInt;
      RecordsEmpty(page.bb[..], currentpos);
      if currentpos >= file.blocksize && blk <= 0 {
        return None;
      }
      if currentpos >= file.blocksize {
        var last := blk - 1;
        assert file.blocks[..blk][..last] == file.blocks[..last];
        assert file.blocks[..blk][last] == file.blocks[last];
        blk := last;
        MoveToBlock(blk);
        RecordsEmpty(page.bb[..], currentpos);
      }
      record := page.ReadBytes(currentpos);
      currentpos := currentpos + 4 + |record.value|;
    }
  }
}

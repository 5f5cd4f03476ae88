/**
 `FileMgr` for data files, `Buffer` and `BufferMgr`, with the engine's step machine carried along as a
 ghost. Pages hold typed values here; a buffer is an element of the pool, as in the source's vector.
 */
module Buffers {
  import opened Types
  import opened History
  import opened Engine
  import opened CrashSafety
  import opened Logs
  import opened LogCodec
  import opened PinLists

  /** The run of the engine so far, and the state it has led to. */
  class Ledger {
    ghost var init: Store
    ghost var run: seq<Step>
    ghost var s: State

    ghost predicate Valid()
      reads this
    {
      ValidRun(Init(init), run) && s == Exec(Init(init), run) && Sane(s)
    }

    /** A new database. */
    ghost constructor (d: Store)
      ensures Valid() && init == d && run == [] && s == Init(d)
    {
      init, run, s := d, [], Init(d);
    }

    ghost method Do(step: Step)
      requires Valid() && Enabled(s, step)
      modifies this
      ensures Valid() && init == old(init) && run == old(run) + [step]
      ensures s == Apply(old(s), step)
    {
      hide Inv, Apply, Enabled;
      RunAppend(Init(init), run, step);
      run := run + [step];
      s := Apply(s, step);
      Reachable(init, run);
      InvFacts(init, s);
    }

    lemma Holds()
      requires Valid()
      ensures Inv(init, s)
    {
      Reachable(init, run);
    }
  }

  /** Data blocks on disk. */
  class DataFile {
    var blocks: map<BlockId, Cells>

    constructor (blocks: map<BlockId, Cells>)
      ensures this.blocks == blocks
    {
      this.blocks := blocks;
    }

    method Read(b: BlockId) returns (c: Cells)
      requires b in blocks
      ensures c == blocks[b]
    {
      c := blocks[b];
    }

    method Write(b: BlockId, c: Cells)
      requires b in blocks
      modifies this
      ensures blocks == old(blocks)[b := c]
    {
      blocks := blocks[b := c];
    }
  }

  datatype Buffer = Buffer(contents: Cells, blk: Option<BlockId>, pins: int, txnum: Option<nat>, lsn: Option<nat>)

  // ---------------------------------------------------------------------------------------------
  // How log, disk and pool show the state of the engine
  // ---------------------------------------------------------------------------------------------

  ghost predicate Encodes(recs: seq<seq<byte>>, lg: seq<LogRecord>) {
    && |recs| == |lg|
    && forall k | 0 <= k < |lg| :: Encodable(lg[k]) && Representable(lg[k]) && recs[k] == Encode(lg[k])
  }

  ghost predicate LogShows(ls: LogState, lg: seq<LogRecord>, saved: nat, base: nat) {
    && LogOk(ls)
    && Encodes(AllRecords(ls), lg)
    && |FileRecords(ls.blocks)| == saved
    && base + ls.saved == saved
  }

  ghost predicate DiskShows(blocks: map<BlockId, Cells>, disk: Store) {
    && (forall l | l in disk :: l.blk in blocks && l.off in blocks[l.blk] && blocks[l.blk][l.off] == disk[l])
    && (forall b, o | b in blocks && o in blocks[b] :: Loc(b, o) in disk)
  }

  ghost predicate BufferShows(bf: Buffer, blocks: map<BlockId, Cells>, cur: Store, dirty: map<BlockId, Dirty>) {
    match bf.blk
    case None => bf.txnum.None?
    case Some(b) =>
      && b in blocks && bf.contents.Keys == blocks[b].Keys
      && (forall o | o in bf.contents :: Loc(b, o) in cur && cur[Loc(b, o)] == bf.contents[o])
      && (if bf.txnum.Some? then b in dirty && dirty[b] == Dirty(bf.txnum.value, bf.lsn) else b !in dirty)
  }

  ghost predicate Cached(pool: seq<Buffer>, b: BlockId) {
    exists i :: 0 <= i < |pool| && pool[i].blk == Some(b)
  }

  /** No block is in two buffers. */
  ghost predicate OneBufferEach(pool: seq<Buffer>) {
    forall i, j | 0 <= i < |pool| && 0 <= j < |pool| && pool[i].blk.Some? && pool[i].blk == pool[j].blk :: i == j
  }

  ghost predicate PoolShows(pool: seq<Buffer>, blocks: map<BlockId, Cells>, cur: Store, dirty: map<BlockId, Dirty>) {
    && (forall i | 0 <= i < |pool| :: BufferShows(pool[i], blocks, cur, dirty))
    && OneBufferEach(pool)
    && (forall b | b in dirty :: Cached(pool, b))
  }

  predicate PinsOf(bf: Buffer, pins: seq<Pin>) {
    bf.pins == if bf.blk.Some? then Count(pins, bf.blk.value) else 0
  }

  /** Pin counts are the numbers of outstanding pins, and a pinned block is in the pool. */
  ghost predicate PinsShow(pool: seq<Buffer>, pins: seq<Pin>) {
    && (forall i | 0 <= i < |pool| :: PinsOf(pool[i], pins))
    && (forall b | Count(pins, b) > 0 :: Cached(pool, b))
  }

  function Unpinned(pool: seq<Buffer>): nat {
    if pool == [] then 0
    else Unpinned(pool[..|pool| - 1]) + if pool[|pool| - 1].pins > 0 then 0 else 1
  }

  /** From `s` to `s'` blocks and log records have only gone to disk. */
  predicate OnlyFlushes(s: State, s': State) {
    && s'.cur == s.cur && s'.log == s.log && s'.hist == s.hist && s'.base == s.base && s'.next == s.next
    && s'.txs == s.txs && s'.owner == s.owner && s'.mode == s.mode
    && s.saved <= s'.saved
    && (forall b | b in s'.dirty :: b in s.dirty && s'.dirty[b] == s.dirty[b])
  }

  /** Block `b` alone has gone to disk. */
  ghost predicate WritesBack(s: State, s': State, b: BlockId) {
    && s'.disk.Keys == s.disk.Keys == s.cur.Keys && s'.dirty == s.dirty - {b}
    && forall l | l in s.disk :: s'.disk[l] == if l.blk == b then s.cur[l] else s.disk[l]
  }

  /** The block of one buffer alone has gone to disk, if the buffer was dirty. */
  ghost predicate Evicts(s: State, s': State, bf: Buffer, blocks: map<BlockId, Cells>, blocks': map<BlockId, Cells>) {
    if bf.txnum.None? then s' == s && blocks' == blocks
    else bf.blk.Some? && WritesBack(s, s', bf.blk.value) && blocks' == blocks[bf.blk.value := bf.contents]
  }

  predicate DirtyBy(dirty: map<BlockId, Dirty>, b: BlockId, t: nat) {
    b in dirty && dirty[b].tx == t
  }

  /** From `s` to `s'` the blocks that `t` modified last have gone to disk, and no other one. */
  ghost predicate FlushesOf(s: State, s': State, t: nat) {
    && s'.disk.Keys == s.disk.Keys
    && (forall l | l in s.disk && !DirtyBy(s.dirty, l.blk, t) :: s'.disk[l] == s.disk[l])
    && (forall l | l in s.disk && DirtyBy(s.dirty, l.blk, t) :: l in s.cur && s'.disk[l] == s.cur[l])
    && (forall b :: b in s'.dirty <==> b in s.dirty && s.dirty[b].tx != t)
  }

  /** On the way there. */
  ghost predicate FlushesSome(s: State, s': State, t: nat) {
    && s'.disk.Keys == s.disk.Keys
    && (forall l | l in s.disk && !DirtyBy(s.dirty, l.blk, t) :: s'.disk[l] == s.disk[l])
    && (forall b | b in s.dirty && s.dirty[b].tx != t :: b in s'.dirty)
  }

  // ---------------------------------------------------------------------------------------------
  // Lemmas about the showing predicates
  // ---------------------------------------------------------------------------------------------

  lemma FlushShows(ls: LogState, lg: seq<LogRecord>, saved: nat, base: nat)
    requires LogShows(ls, lg, saved, base)
    ensures LogShows(FlushedState(ls), lg, |lg|, base)
    ensures base + ls.latest == |lg|
  {
    FlushedOk(ls);
    SavedPrefix(ls);
  }

  lemma AppendShows(ls: LogState, lg: seq<LogRecord>, saved: nat, base: nat, r: LogRecord)
    requires LogShows(ls, lg, saved, base) && Encodable(r) && Representable(r) && Fits(Encode(r), |ls.page|)
    ensures LogShows(AppendState(ls, Encode(r)), lg + [r], if Full(ls.page, Encode(r)) then |lg| else saved, base)
    ensures base + ls.latest == |lg|
  {
    AppendOk(ls, Encode(r));
    SavedPrefix(ls);
    EncodesSnoc(AllRecords(ls), lg, r);
    hide Encodes, Encode, LogOk, Full;
  }

  lemma EncodesSnoc(recs: seq<seq<byte>>, lg: seq<LogRecord>, r: LogRecord)
    requires Encodes(recs, lg) && Encodable(r) && Representable(r)
    ensures Encodes(recs + [Encode(r)], lg + [r]) && |recs| == |lg|
  {
    hide Encode, Encodable, Representable;
  }

  /** One more block that `t` modified last. */
  lemma FlushesOne(s: State, m: State, s': State, b: BlockId, t: nat)
    requires FlushesSome(s, m, t) && OnlyFlushes(s, m) && DirtyBy(m.dirty, b, t) && WritesBack(m, s', b)
    ensures FlushesSome(s, s', t) && DirtyBy(s.dirty, b, t)
  {}

  lemma FlushesNone(s: State, t: nat)
    ensures FlushesSome(s, s, t)
  {}

  lemma FlushesEnd(s: State, s': State, t: nat)
    requires FlushesSome(s, s', t) && OnlyFlushes(s, s') && NoDirty(s'.dirty, t)
    requires s'.disk.Keys == s'.cur.Keys && DirtyWhereDifferent(s'.disk, s'.cur, s'.dirty)
    ensures FlushesOf(s, s', t)
  {}

  lemma WritesBackStep(s: State, b: BlockId)
    requires Enabled(s, FlushBlock(b)) && s.base <= s.saved <= |s.log|
    ensures WritesBack(s, Apply(s, FlushBlock(b)), b)
  {}

  lemma FlushBlockStep(s: State, b: BlockId)
    requires Enabled(s, FlushBlock(b)) && s.base <= s.saved <= |s.log|
    ensures var s', lsn := Apply(s, FlushBlock(b)), s.dirty[b].lsn;
            && OnlyFlushes(s, s') && s'.disk == WrittenBack(s.disk, s.cur, b) && s'.dirty == s.dirty - {b}
            && s'.saved == if lsn.Some? && s.base + lsn.value >= s.saved then |s.log| else s.saved
  {}

  lemma BufferShown(pool: seq<Buffer>, i: nat, blocks: map<BlockId, Cells>, cur: Store, dirty: map<BlockId, Dirty>)
    requires i < |pool| && PoolShows(pool, blocks, cur, dirty)
    ensures BufferShows(pool[i], blocks, cur, dirty)
  {}

  lemma WrittenBackShows(blocks: map<BlockId, Cells>, disk: Store, cur: Store, b: BlockId, c: Cells)
    requires DiskShows(blocks, disk) && disk.Keys == cur.Keys
    requires b in blocks && c.Keys == blocks[b].Keys
    requires forall o | o in c :: Loc(b, o) in cur && cur[Loc(b, o)] == c[o]
    ensures DiskShows(blocks[b := c], WrittenBack(disk, cur, b))
  {}

  lemma {:induction false} UnpinnedUpdate(pool: seq<Buffer>, i: nat, bf: Buffer)
    requires i < |pool|
    ensures Unpinned(pool[i := bf]) ==
            Unpinned(pool) - (if pool[i].pins > 0 then 0 else 1) + (if bf.pins > 0 then 0 else 1)
  {
    var n := |pool| - 1;
    if i < n {
      assert pool[i := bf][..n] == pool[..n][i := bf];
      UnpinnedUpdate(pool[..n], i, bf);
    } else {
      assert pool[i := bf][..n] == pool[..n];
    }
  }

  lemma {:induction false} SomeUnpinned(pool: seq<Buffer>)
    ensures Unpinned(pool) > 0 <==> exists i :: 0 <= i < |pool| && pool[i].pins <= 0
  {
    if pool != [] {
      SomeUnpinned(pool[..|pool| - 1]);
      assert forall i | 0 <= i < |pool| - 1 :: pool[..|pool| - 1][i] == pool[i];
    }
  }

  lemma {:induction false} EmptyPool(n: nat)
    ensures Unpinned(seq(n, _ => Buffer(map[], None, 0, None, None))) == n
  {
    var pool := seq(n, _ => Buffer(map[], None, 0, None, None));
    if n > 0 {
      assert pool[..n - 1] == seq(n - 1, _ => Buffer(map[], None, 0, None, None));
      EmptyPool(n - 1);
    }
  }

  // ---------------------------------------------------------------------------------------------
  // The class
  // ---------------------------------------------------------------------------------------------

  class BufferMgr {
    const fm: DataFile
    const lm: LogMgr
    ghost const ledger: Ledger
    var pool: seq<Buffer>
    var numAvailable: nat
    ghost var pins: seq<Pin>

    ghost function Footprint(): set<object>
    {
      {this, fm, lm, lm.file, lm.logpage.bb, ledger}
    }

    ghost predicate Valid()
      reads Footprint()
    {
      && ledger.Valid()
      && lm.Valid() && LogShows(lm.State(), ledger.s.log, ledger.s.saved, ledger.s.base)
      && DiskShows(fm.blocks, ledger.s.disk)
      && PoolShows(pool, fm.blocks, ledger.s.cur, ledger.s.dirty)
      && PinsShow(pool, pins)
      && numAvailable == Unpinned(pool)
    }

    /** A pool of unassigned buffers, for an engine without dirty blocks. */
    constructor (fm: DataFile, lm: LogMgr, numbuffs: nat, ghost ledger: Ledger)
      requires ledger.Valid() && ledger.s.dirty == map[]
      requires lm.Valid() && LogShows(lm.State(), ledger.s.log, ledger.s.saved, ledger.s.base)
      requires DiskShows(fm.blocks, ledger.s.disk)
      ensures Valid() && this.fm == fm && this.lm == lm && this.ledger == ledger
      ensures pins == [] && numAvailable == numbuffs == |pool|
    {
      this.fm, this.lm, this.ledger := fm, lm, ledger;
      pool := seq(numbuffs, _ => Buffer(map[], None, 0, None, None));
      numAvailable := numbuffs;
      pins := [];
      new;
      EmptyPool(numbuffs);
    }

    /** The engine has only gone on from where it was, in the same blocks. */
    twostate predicate GoesOn()
      reads ledger, fm
    {
      ledger.init == old(ledger.init) && old(ledger.run) <= ledger.run && fm.blocks.Keys == old(fm.blocks).Keys
    }

    /** The files after a dirty buffer has been written. */
    method WriteOut(bf: Buffer)
      requires lm.Valid() && LogShows(lm.State(), ledger.s.log, ledger.s.saved, ledger.s.base)
      requires bf.blk.Some? ==> bf.blk.value in fm.blocks
      modifies fm, lm, lm.file, lm.logpage.bb
      ensures lm.Valid()
      ensures var s := ledger.s;
              LogShows(lm.State(), s.log,
                       if bf.lsn.Some? && s.base + bf.lsn.value >= s.saved then |s.log| else s.saved, s.base)
      ensures fm.blocks == if bf.blk.Some? then old(fm.blocks)[bf.blk.value := bf.contents] else old(fm.blocks)
    {
      hide LogOk, AllRecords, FileRecords, Encodes;
      ghost var s := ledger.s;
      FlushShows(lm.State(), s.log, s.saved, s.base);
      if bf.lsn.Some? {
        lm.Flush(bf.lsn.value);
      }
      if bf.blk.Some? {
        fm.Write(bf.blk.value, bf.contents);
      }
    }

    /** Writes a dirty buffer back: the log first, as far as the buffer's sequence number, then the block. */
    method WriteBack(i: nat)
      requires Valid() && i < |pool| && pool[i].txnum.Some?
      modifies Footprint()
      ensures Valid() && GoesOn() && OnlyFlushes(old(ledger.s), ledger.s)
      ensures pool == old(pool)[i := old(pool)[i].(txnum := None)]
      ensures pins == old(pins) && numAvailable == old(numAvailable)
      ensures pool[i].blk.Some? && WritesBack(old(ledger.s), ledger.s, pool[i].blk.value)
      ensures fm.blocks == old(fm.blocks)[pool[i].blk.value := pool[i].contents]
    {
      hide LogShows, LogOk, AllRecords, FileRecords, Encodes, DiskShows, PinsShow, ValidRun, Exec, WrittenBack;
      hide GoodHistory, Faithful, WriteAhead, DirtyWhereDifferent, ModeOk, Unpinned, Cached, OneBufferEach;
      var bf := pool[i];
      BufferShown(pool, i, fm.blocks, ledger.s.cur, ledger.s.dirty);
      hide PoolShows;
      ledger.Holds();
      ghost var s := ledger.s;
      WriteOut(bf);
      pool := pool[i := bf.(txnum := None)];
      ghost var b := bf.blk.value;
      FlushBlockStep(s, b);
      WritesBackStep(s, b);
      hide WritesBack;
      hide Apply, Enabled, Inv;
      ledger.Do(FlushBlock(b));
      WrittenBackShows(old(fm.blocks), s.disk, s.cur, b, bf.contents);
      UnpinnedUpdate(old(pool), i, pool[i]);
      CleanedPool(old(pool), i, old(fm.blocks), s.cur, s.dirty, pins);
    }

    /** `Buffer::flush`. */
    method FlushBuffer(i: nat)
      requires Valid() && i < |pool|
      modifies Footprint()
      ensures Valid() && GoesOn() && OnlyFlushes(old(ledger.s), ledger.s)
      ensures pool == old(pool)[i := old(pool)[i].(txnum := None)]
      ensures pins == old(pins) && numAvailable == old(numAvailable)
      ensures pool[i].blk.Some? ==> pool[i].blk.value !in ledger.s.dirty
      ensures Evicts(old(ledger.s), ledger.s, old(pool)[i], old(fm.blocks), fm.blocks)
    {
      hide LogShows, DiskShows, PinsShow, ValidRun, Exec, LogOk, Unpinned, Cached, OneBufferEach;
      if pool[i].txnum.Some? {
        WriteBack(i);
      } else {
        BufferShown(pool, i, fm.blocks, ledger.s.cur, ledger.s.dirty);
        assert pool[i := pool[i].(txnum := None)] == pool;
      }
    }

    /** Writes back every buffer that transaction `txnum` modified last. */
    method FlushAll(txnum: nat)
      requires Valid()
      modifies Footprint()
      ensures Valid() && GoesOn() && OnlyFlushes(old(ledger.s), ledger.s)
      ensures NoDirty(ledger.s.dirty, txnum) && FlushesOf(old(ledger.s), ledger.s, txnum)
      ensures pins == old(pins) && numAvailable == old(numAvailable) && SameFrames(old(pool), pool)
      ensures forall j | 0 <= j < |pool| ::
                pool[j] == if old(pool)[j].txnum == Some(txnum) then old(pool)[j].(txnum := None) else old(pool)[j]
      ensures forall b | b in fm.blocks && !DirtyBy(old(ledger.s).dirty, b, txnum) :: fm.blocks[b] == old(fm.blocks)[b]
    {
      hide LogShows, DiskShows, PinsShow, ValidRun, Exec, LogOk, Cached, OneBufferEach, Unpinned, PoolShows;
      hide FlushesSome, WritesBack;
      ghost var s, was := ledger.s, pool;
      FlushesNone(s, txnum);
      for i := 0 to |pool|
        invariant Valid() && GoesOn() && OnlyFlushes(s, ledger.s) && FlushesSome(s, ledger.s, txnum)
        invariant pins == old(pins) && numAvailable == old(numAvailable) && |pool| == |was|
        invariant forall j | 0 <= j < |pool| ::
                    pool[j] == if j < i && was[j].txnum == Some(txnum) then was[j].(txnum := None) else was[j]
        invariant forall b | b in fm.blocks && !DirtyBy(s.dirty, b, txnum) :: fm.blocks[b] == old(fm.blocks)[b]
      {
        var tx := pool[i].txnum;
        if tx.Some? && tx.value == txnum {
          ghost var m := ledger.s;
          BufferShown(pool, i, fm.blocks, m.cur, m.dirty);
          FlushBuffer(i);
          FlushesOne(s, m, ledger.s, pool[i].blk.value, txnum);
        }
      }
      CleanOf(pool, fm.blocks, ledger.s.cur, ledger.s.dirty, txnum);
      ledger.Holds();
      FlushesEnd(s, ledger.s, txnum);
    }

    method FindExistingBuffer(blk: BlockId) returns (idx: Option<nat>)
      ensures idx.None? <==> !Cached(pool, blk)
      ensures idx.Some? ==> idx.value < |pool| && pool[idx.value].blk == Some(blk)
    {
      for i := 0 to |pool|
        invariant forall j | 0 <= j < i :: pool[j].blk != Some(blk)
      {
        if pool[i].blk == Some(blk) {
          return Some(i);
        }
      }
      idx := None;
    }

    /** The first unpinned buffer. */
    method ChooseUnpinnedBuffer() returns (idx: Option<nat>)
      ensures idx.None? <==> forall j | 0 <= j < |pool| :: pool[j].pins > 0
      ensures idx.Some? ==> idx.value < |pool| && pool[idx.value].pins <= 0
      ensures idx.Some? ==> forall j | 0 <= j < idx.value :: pool[j].pins > 0
    {
      for i := 0 to |pool|
        invariant forall j | 0 <= j < i :: pool[j].pins > 0
      {
        if pool[i].pins <= 0 {
          return Some(i);
        }
      }
      idx := None;
    }

    /** `Buffer::assign_to_block`: writes the old block back if it is dirty, then reads the new one. */
    method AssignToBlock(i: nat, blk: BlockId)
      requires Valid() && i < |pool| && pool[i].pins <= 0
      requires blk in fm.blocks && !Cached(pool, blk)
      modifies Footprint()
      ensures Valid() && GoesOn() && OnlyFlushes(old(ledger.s), ledger.s)
      ensures pins == old(pins) && numAvailable == old(numAvailable)
      ensures pool == old(pool)[i := Buffer(fm.blocks[blk], Some(blk), 0, None, old(pool)[i].lsn)]
      ensures Evicts(old(ledger.s), ledger.s, old(pool)[i], old(fm.blocks), fm.blocks)
    {
      hide LogShows, ValidRun, Exec, LogOk, GoodHistory, Faithful, WriteAhead, ModeOk, Unpinned;
      hide DiskShows, PoolShows, PinsShow;
      SameBlocksCached(pool, pool[i := pool[i].(txnum := None)]);
      FlushBuffer(i);
      ledger.Holds();
      var contents := fm.Read(blk);
      var bf := pool[i].(blk := Some(blk), contents := contents, pins := 0);
      AssignedPool(pool, i, fm.blocks, ledger.s.disk, ledger.s.cur, ledger.s.dirty, bf);
      AssignedPins(pool, i, pins, bf);
      UnpinnedUpdate(pool, i, bf);
      pool := pool[i := bf];
    }

    /** One more pin on the block of a buffer. */
    method CountPin(i: nat, blk: BlockId, ghost t: nat)
      requires Valid() && i < |pool| && pool[i].blk == Some(blk)
      modifies this
      ensures Valid() && pool == old(pool)[i := old(pool)[i].(pins := old(pool)[i].pins + 1)]
      ensures pins == old(pins) + [Pin(t, blk)]
      ensures numAvailable <= old(numAvailable) <= numAvailable + 1
    {
      hide LogShows, DiskShows, PoolShows, PinsShow, ValidRun, Exec, LogOk, Unpinned;
      var bf := pool[i].(pins := pool[i].pins + 1);
      RepinnedPool(pool, i, bf.pins, fm.blocks, ledger.s.cur, ledger.s.dirty);
      PinnedPool(pool, i, pins, Pin(t, blk));
      UnpinnedUpdate(pool, i, bf);
      SomeUnpinned(pool);
      if pool[i].pins <= 0 {
        numAvailable := numAvailable - 1;
      }
      pool := pool[i := bf];
      pins := pins + [Pin(t, blk)];
    }

    /** One attempt to pin; `None` when the block is not in the pool and every buffer is pinned. */
    method TryToPin(blk: BlockId, ghost t: nat) returns (idx: Option<nat>)
      requires Valid() && blk in fm.blocks
      modifies Footprint()
      ensures Valid() && GoesOn() && OnlyFlushes(old(ledger.s), ledger.s)
      ensures idx.None? <==> !Cached(old(pool), blk) && old(numAvailable) == 0
      ensures idx.None? ==> pool == old(pool) && pins == old(pins) && numAvailable == old(numAvailable)
      ensures idx.Some? ==> idx.value < |pool| && pool[idx.value].blk == Some(blk)
      ensures idx.Some? ==> pins == old(pins) + [Pin(t, blk)]
      ensures numAvailable <= old(numAvailable) <= numAvailable + 1
      ensures PinnedStay(old(pool), pool)
      ensures idx.Some? ==>
                |pool| == |old(pool)| && forall j | 0 <= j < |pool| && j != idx.value :: pool[j] == old(pool)[j]
      ensures idx.Some? && Cached(old(pool), blk) ==> ledger.s == old(ledger.s) && fm.blocks == old(fm.blocks)
      ensures idx.Some? && !Cached(old(pool), blk) ==>
                && (forall j | 0 <= j < idx.value :: old(pool)[j].pins > 0) && old(pool)[idx.value].pins <= 0
                && Evicts(old(ledger.s), ledger.s, old(pool)[idx.value], old(fm.blocks), fm.blocks)
      ensures idx.None? ==> ledger.s == old(ledger.s) && fm.blocks == old(fm.blocks)
    {
      hide LogShows, DiskShows, PoolShows, PinsShow, ValidRun, Exec, LogOk, Unpinned, Evicts;
      SomeUnpinned(pool);
      idx := FindExistingBuffer(blk);
      if idx.None? {
        idx := ChooseUnpinnedBuffer();
        if idx.Some? {
          AssignToBlock(idx.value, blk);
        } else {
          return None;
        }
      }
      CountPin(idx.value, blk, t);
    }

    /** Gives back one pin of transaction `t`. */
    method Unpin(i: nat, ghost t: nat)
      requires Valid() && i < |pool| && pool[i].blk.Some? && Pin(t, pool[i].blk.value) in pins
      modifies this
      ensures Valid() && pins == Erase(old(pins), Pin(t, old(pool)[i].blk.value))
      ensures pool == old(pool)[i := old(pool)[i].(pins := old(pool)[i].pins - 1)]
      ensures old(numAvailable) <= numAvailable <= old(numAvailable) + 1
    {
      hide LogShows, DiskShows, PoolShows, PinsShow, ValidRun, Exec, LogOk, Unpinned;
      var bf := pool[i].(pins := pool[i].pins - 1);
      RepinnedPool(pool, i, bf.pins, fm.blocks, ledger.s.cur, ledger.s.dirty);
      UnpinnedPool(pool, i, pins, t);
      UnpinnedUpdate(pool, i, bf);
      pool := pool[i := bf];
      if bf.pins <= 0 {
        numAvailable := numAvailable + 1;
      }
      pins := Erase(pins, Pin(t, bf.blk.value));
    }

    /** `buff.contents().set_int` or `set_string`: a change of the page in memory. */
    method SetContents(i: nat, off: nat, v: Value)
      requires i < |pool|
      modifies this`pool
      ensures pool == old(pool)[i := old(pool)[i].(contents := old(pool)[i].contents[off := v])]
    {
      pool := pool[i := pool[i].(contents := pool[i].contents[off := v])];
    }

    /** `Buffer::set_modified`; without a sequence number the old one stays. */
    method SetModified(i: nat, txnum: nat, lsn: Option<nat>)
      requires i < |pool|
      modifies this`pool
      ensures var newLsn := if lsn.Some? then lsn else old(pool)[i].lsn;
              pool == old(pool)[i := old(pool)[i].(txnum := Some(txnum), lsn := newLsn)]
    {
      pool := pool[i := pool[i].(txnum := Some(txnum))];
      if lsn.Some? {
        pool := pool[i := pool[i].(lsn := lsn)];
      }
    }
  }

  /** The pool after the flush of buffer `i`. */
  lemma CleanedPool(pool: seq<Buffer>, i: nat, blocks: map<BlockId, Cells>, cur: Store,
                    dirty: map<BlockId, Dirty>, pins: seq<Pin>)
    requires i < |pool| && pool[i].blk.Some? && pool[i].txnum.Some?
    requires PoolShows(pool, blocks, cur, dirty) && PinsShow(pool, pins)
    ensures var b, pool' := pool[i].blk.value, pool[i := pool[i].(txnum := None)];
            && b in blocks
            && PoolShows(pool', blocks[b := pool[i].contents], cur, dirty - {b})
            && PinsShow(pool', pins)
  {
    var b, pool' := pool[i].blk.value, pool[i := pool[i].(txnum := None)];
    assert BufferShows(pool[i], blocks, cur, dirty);
    forall j | 0 <= j < |pool'|
      ensures BufferShows(pool'[j], blocks[b := pool[i].contents], cur, dirty - {b})
      ensures PinsOf(pool'[j], pins)
    {
      assert BufferShows(pool[j], blocks, cur, dirty);
      assert PinsOf(pool[j], pins);
    }
    SameBlocksCached(pool, pool');
  }

  lemma SameBlocksCached(pool: seq<Buffer>, pool': seq<Buffer>)
    requires |pool'| == |pool| && forall j | 0 <= j < |pool| :: pool'[j].blk == pool[j].blk
    ensures forall b :: Cached(pool, b) <==> Cached(pool', b)
    ensures OneBufferEach(pool) ==> OneBufferEach(pool')
  {
    forall b | Cached(pool, b)
      ensures Cached(pool', b)
    {
      var j :| 0 <= j < |pool| && pool[j].blk == Some(b);
      assert pool'[j].blk == Some(b);
    }
    forall b | Cached(pool', b)
      ensures Cached(pool, b)
    {
      var j :| 0 <= j < |pool'| && pool'[j].blk == Some(b);
      assert pool[j].blk == Some(b);
    }
  }

  /** Buffers keep their blocks and pins. */
  predicate SameFrames(pool: seq<Buffer>, pool': seq<Buffer>) {
    && |pool'| == |pool|
    && forall j | 0 <= j < |pool| :: pool'[j].blk == pool[j].blk && pool'[j].pins == pool[j].pins
  }

  /** A pinned buffer keeps its block and stays pinned. */
  predicate PinnedStay(pool: seq<Buffer>, pool': seq<Buffer>) {
    && |pool'| == |pool|
    && forall j | 0 <= j < |pool| && pool[j].pins > 0 :: pool'[j].blk == pool[j].blk && pool'[j].pins >= pool[j].pins
  }

  lemma CleanOf(pool: seq<Buffer>, blocks: map<BlockId, Cells>, cur: Store, dirty: map<BlockId, Dirty>, t: nat)
    requires PoolShows(pool, blocks, cur, dirty)
    requires forall j | 0 <= j < |pool| :: pool[j].txnum != Some(t)
    ensures NoDirty(dirty, t)
  {
    forall b | b in dirty
      ensures dirty[b].tx != t
    {
      var j :| 0 <= j < |pool| && pool[j].blk == Some(b);
      assert BufferShows(pool[j], blocks, cur, dirty);
    }
  }

  lemma DomainShows(blocks: map<BlockId, Cells>, disk: Store, b: BlockId)
    requires DiskShows(blocks, disk) && b in blocks
    ensures forall o | o in blocks[b] :: Loc(b, o) in disk && disk[Loc(b, o)] == blocks[b][o]
  {
    forall o | o in blocks[b]
      ensures Loc(b, o) in disk && disk[Loc(b, o)] == blocks[b][o]
    {
      assert Loc(b, o) in disk;
    }
  }

  /** A buffer into which a clean block has been read. */
  lemma AssignedBuffer(blocks: map<BlockId, Cells>, disk: Store, cur: Store, dirty: map<BlockId, Dirty>, bf: Buffer)
    requires DiskShows(blocks, disk) && DirtyWhereDifferent(disk, cur, dirty) && disk.Keys == cur.Keys
    requires bf.blk.Some? && bf.blk.value in blocks && bf.blk.value !in dirty
    requires bf.contents == blocks[bf.blk.value] && bf.txnum.None?
    ensures BufferShows(bf, blocks, cur, dirty)
  {
    var blk := bf.blk.value;
    DomainShows(blocks, disk, blk);
    forall o | o in bf.contents
      ensures Loc(blk, o) in cur && cur[Loc(blk, o)] == bf.contents[o]
    {
      assert Loc(blk, o) in disk;
    }
  }

  /** The other buffers keep their blocks. */
  lemma AssignedCached(pool: seq<Buffer>, i: nat, bf: Buffer)
    requires i < |pool|
    ensures forall b | Cached(pool, b) && pool[i].blk != Some(b) :: Cached(pool[i := bf], b)
  {
    forall b | Cached(pool, b) && pool[i].blk != Some(b)
      ensures Cached(pool[i := bf], b)
    {
      var j :| 0 <= j < |pool| && pool[j].blk == Some(b);
      assert pool[i := bf][j].blk == Some(b);
    }
  }

  lemma AssignedPins(pool: seq<Buffer>, i: nat, pins: seq<Pin>, bf: Buffer)
    requires i < |pool| && pool[i].pins <= 0 && PinsShow(pool, pins)
    requires bf.blk.Some? && !Cached(pool, bf.blk.value) && bf.pins == 0
    ensures PinsShow(pool[i := bf], pins)
  {
    hide Cached;
    var pool' := pool[i := bf];
    AssignedCached(pool, i, bf);
    assert PinsOf(pool[i], pins);
    forall j | 0 <= j < |pool'|
      ensures PinsOf(pool'[j], pins)
    {
      assert PinsOf(pool[j], pins);
    }
  }

  /** A block that is in no buffer may be read into an unpinned, clean one. */
  lemma AssignedPool(pool: seq<Buffer>, i: nat, blocks: map<BlockId, Cells>, disk: Store, cur: Store,
                     dirty: map<BlockId, Dirty>, bf: Buffer)
    requires i < |pool| && (pool[i].blk.Some? ==> pool[i].blk.value !in dirty)
    requires PoolShows(pool, blocks, cur, dirty)
    requires DiskShows(blocks, disk) && DirtyWhereDifferent(disk, cur, dirty) && disk.Keys == cur.Keys
    requires bf.blk.Some? && bf.blk.value in blocks && !Cached(pool, bf.blk.value)
    requires bf.contents == blocks[bf.blk.value] && bf.txnum.None?
    ensures PoolShows(pool[i := bf], blocks, cur, dirty)
  {
    hide DiskShows, DirtyWhereDifferent;
    var pool' := pool[i := bf];
    AssignedBuffer(blocks, disk, cur, dirty, bf);
    AssignedCached(pool, i, bf);
    forall j | 0 <= j < |pool'|
      ensures BufferShows(pool'[j], blocks, cur, dirty)
    {
      assert BufferShows(pool[j], blocks, cur, dirty);
    }
  }

  /** Pin counts do not matter to what the pool shows. */
  lemma RepinnedPool(pool: seq<Buffer>, i: nat, n: int, blocks: map<BlockId, Cells>, cur: Store,
                     dirty: map<BlockId, Dirty>)
    requires i < |pool| && PoolShows(pool, blocks, cur, dirty)
    ensures OneBufferEach(pool) && PoolShows(pool[i := pool[i].(pins := n)], blocks, cur, dirty)
  {
    hide Cached, OneBufferEach;
    var pool' := pool[i := pool[i].(pins := n)];
    SameBlocksCached(pool, pool');
    forall j | 0 <= j < |pool'|
      ensures BufferShows(pool'[j], blocks, cur, dirty)
    {
      assert BufferShows(pool[j], blocks, cur, dirty);
    }
  }

  lemma PinnedPool(pool: seq<Buffer>, i: nat, pins: seq<Pin>, p: Pin)
    requires i < |pool| && pool[i].blk == Some(p.blk) && OneBufferEach(pool) && PinsShow(pool, pins)
    ensures PinsShow(pool[i := pool[i].(pins := pool[i].pins + 1)], pins + [p]) && pool[i].pins >= 0
  {
    hide Cached, Count;
    assert PinsOf(pool[i], pins);
    var pool' := pool[i := pool[i].(pins := pool[i].pins + 1)];
    SameBlocksCached(pool, pool');
    forall j | 0 <= j < |pool'|
      ensures PinsOf(pool'[j], pins + [p])
    {
      assert PinsOf(pool[j], pins);
      if pool[j].blk.Some? {
        AddPin(pins, p, p.tx, pool[j].blk.value);
      }
    }
    HoldsBlock(pool', i, p.blk);
    forall b | Count(pins + [p], b) > 0
      ensures Cached(pool', b)
    {
      AddPin(pins, p, p.tx, b);
    }
  }

  lemma HoldsBlock(pool: seq<Buffer>, i: nat, b: BlockId)
    requires i < |pool| && pool[i].blk == Some(b)
    ensures Cached(pool, b)
  {}

  lemma UnpinnedPool(pool: seq<Buffer>, i: nat, pins: seq<Pin>, t: nat)
    requires i < |pool| && pool[i].blk.Some? && Pin(t, pool[i].blk.value) in pins
    requires OneBufferEach(pool) && PinsShow(pool, pins)
    ensures PinsShow(pool[i := pool[i].(pins := pool[i].pins - 1)], Erase(pins, Pin(t, pool[i].blk.value)))
    ensures pool[i].pins > 0
  {
    hide Cached, Count, Erase;
    var pool', p := pool[i := pool[i].(pins := pool[i].pins - 1)], Pin(t, pool[i].blk.value);
    SameBlocksCached(pool, pool');
    forall j | 0 <= j < |pool'|
      ensures PinsOf(pool'[j], Erase(pins, p))
    {
      assert PinsOf(pool[j], pins);
      if pool[j].blk.Some? {
        ErasePin(pins, p, t, pool[j].blk.value);
      }
    }
    forall b | Count(Erase(pins, p), b) > 0
      ensures Cached(pool', b)
    {
      ErasePin(pins, p, t, b);
    }
    InList(pins, t, p.blk);
    assert PinsOf(pool[i], pins);
  }

  lemma SameFramesPins(pool: seq<Buffer>, pool': seq<Buffer>, pins: seq<Pin>)
    requires SameFrames(pool, pool') && PinsShow(pool, pins)
    ensures PinsShow(pool', pins)
  {
    hide Cached, Count;
    SameBlocksCached(pool, pool');
    forall j | 0 <= j < |pool'|
      ensures PinsOf(pool'[j], pins)
    {
      assert PinsOf(pool[j], pins);
    }
  }

  /** A value written into a buffer, which becomes dirty. */
  lemma WrittenPool(pool: seq<Buffer>, i: nat, blocks: map<BlockId, Cells>, cur: Store, dirty: map<BlockId, Dirty>,
                    pins: seq<Pin>, b: BlockId, off: nat, v: Value, t: nat, lsn: Option<nat>)
    requires i < |pool| && pool[i].blk == Some(b) && off in pool[i].contents
    requires PoolShows(pool, blocks, cur, dirty) && PinsShow(pool, pins)
    ensures var pool' := pool[i := pool[i].(contents := pool[i].contents[off := v], txnum := Some(t), lsn := lsn)];
            && PoolShows(pool', blocks, cur[Loc(b, off) := v], dirty[b := Dirty(t, lsn)])
            && PinsShow(pool', pins)
            && Unpinned(pool') == Unpinned(pool)
  {
    hide PinsShow, Cached, Unpinned;
    var pool' := pool[i := pool[i].(contents := pool[i].contents[off := v], txnum := Some(t), lsn := lsn)];
    UnpinnedUpdate(pool, i, pool'[i]);
    SameFramesPins(pool, pool', pins);
    SameBlocksCached(pool, pool');
    HoldsBlock(pool', i, b);
    forall j | 0 <= j < |pool'|
      ensures BufferShows(pool'[j], blocks, cur[Loc(b, off) := v], dirty[b := Dirty(t, lsn)])
    {
      assert BufferShows(pool[j], blocks, cur, dirty);
      assert pool[j].blk == Some(b) ==> j == i;
    }
  }

  /** The blocks of the pinned buffers. */
  function PinnedBlocks(pool: seq<Buffer>): set<BlockId> {
    if pool == [] then {}
    else
      var bf := pool[|pool| - 1];
      PinnedBlocks(pool[..|pool| - 1]) + if bf.pins > 0 && bf.blk.Some? then {bf.blk.value} else {}
  }

  lemma {:induction false} PinnedMember(pool: seq<Buffer>, b: BlockId)
    ensures b in PinnedBlocks(pool) <==> exists i :: 0 <= i < |pool| && pool[i].blk == Some(b) && pool[i].pins > 0
  {
    if pool != [] {
      var n := |pool| - 1;
      PinnedMember(pool[..n], b);
      if i :| 0 <= i < |pool| && pool[i].blk == Some(b) && pool[i].pins > 0 {
        assert i < n ==> pool[..n][i] == pool[i];
      }
    }
  }

  lemma {:induction false} PinnedCount(pool: seq<Buffer>)
    requires OneBufferEach(pool)
    requires forall i | 0 <= i < |pool| && pool[i].pins > 0 :: pool[i].blk.Some?
    ensures |PinnedBlocks(pool)| + Unpinned(pool) == |pool|
  {
    if pool != [] {
      var n := |pool| - 1;
      PinnedCount(pool[..n]);
      if pool[n].pins > 0 {
        PinnedMember(pool[..n], pool[n].blk.value);
      }
    }
  }

  /** The number of available buffers is determined by the outstanding pins. */
  lemma AvailableByPins(pool: seq<Buffer>, pins: seq<Pin>, pool': seq<Buffer>, pins': seq<Pin>)
    requires |pool'| == |pool| && OneBufferEach(pool) && OneBufferEach(pool')
    requires PinsShow(pool, pins) && PinsShow(pool', pins')
    requires forall b :: Count(pins', b) == Count(pins, b)
    ensures Unpinned(pool') == Unpinned(pool)
  {
    forall i | 0 <= i < |pool|
      ensures PinsOf(pool[i], pins) && PinsOf(pool'[i], pins')
    {}
    PinnedCount(pool);
    PinnedCount(pool');
    forall b
      ensures b in PinnedBlocks(pool) <==> b in PinnedBlocks(pool')
    {
      PinnedByCount(pool, pins, b);
      PinnedByCount(pool', pins', b);
    }
    assert PinnedBlocks(pool) == PinnedBlocks(pool');
  }

  lemma PinnedByCount(pool: seq<Buffer>, pins: seq<Pin>, b: BlockId)
    requires PinsShow(pool, pins)
    ensures b in PinnedBlocks(pool) <==> Count(pins, b) > 0
  {
    PinnedMember(pool, b);
    if i :| 0 <= i < |pool| && pool[i].blk == Some(b) {
      assert PinsOf(pool[i], pins);
    }
    if b in PinnedBlocks(pool) {
      var i :| 0 <= i < |pool| && pool[i].blk == Some(b) && pool[i].pins > 0;
      assert PinsOf(pool[i], pins);
    }
  }
}

/**
 `Transaction`, `RecoveryMgr` and `BufferList`. Every method carries the ghost run of the engine along, so
 that whatever holds of all runs holds of these methods, whenever they are interrupted by a crash.
 */
module Transactions {
  import opened Types
  import opened LogMeaning
  import opened History
  import opened Engine
  import opened Preservation
  import opened CrashSafety
  import opened Pages
  import opened Logs
  import opened LogCodec
  import opened PinLists
  import opened Buffers

  // ---------------------------------------------------------------------------------------------
  // Pin lists of transactions
  // ---------------------------------------------------------------------------------------------

  /** The transaction's list and map agree with the outstanding pins and with the pool. */
  ghost predicate ListShows(buffers: map<BlockId, nat>, list: seq<BlockId>, pool: seq<Buffer>, pins: seq<Pin>, t: nat) {
    && list == ListOf(pins, t)
    && (forall b :: b in buffers <==> b in list)
    && (forall b | b in buffers :: buffers[b] < |pool| && pool[buffers[b]].blk == Some(b))
  }

  /** Pinned buffers keep their blocks. */
  predicate PinnedKeepBlock(pool: seq<Buffer>, pool': seq<Buffer>) {
    && |pool'| == |pool|
    && forall j | 0 <= j < |pool| && pool[j].pins > 0 :: pool'[j].blk == pool[j].blk
  }

  /** The buffer at a recorded index is pinned. */
  lemma ListedIsPinned(buffers: map<BlockId, nat>, list: seq<BlockId>, pool: seq<Buffer>, pins: seq<Pin>, t: nat,
                       b: BlockId)
    requires ListShows(buffers, list, pool, pins, t) && PinsShow(pool, pins) && b in buffers
    ensures Pin(t, b) in pins && pool[buffers[b]].pins > 0
  {
    InList(pins, t, b);
    assert PinsOf(pool[buffers[b]], pins);
  }

  /**
   What another transaction does, pinning, unpinning and evicting, leaves a transaction's recorded
   indices right.
   */
  lemma OtherListStays(buffers: map<BlockId, nat>, list: seq<BlockId>, t: nat,
                       pool: seq<Buffer>, pins: seq<Pin>, pool': seq<Buffer>, pins': seq<Pin>)
    requires ListShows(buffers, list, pool, pins, t) && PinsShow(pool, pins)
    requires PinnedKeepBlock(pool, pool') && ListOf(pins', t) == ListOf(pins, t)
    ensures ListShows(buffers, list, pool', pins', t)
  {
    forall b | b in buffers
      ensures pool'[buffers[b]].blk == Some(b)
    {
      ListedIsPinned(buffers, list, pool, pins, t, b);
    }
  }

  lemma ListedCached(buffers: map<BlockId, nat>, list: seq<BlockId>, pool: seq<Buffer>, pins: seq<Pin>, t: nat,
                     b: BlockId)
    requires ListShows(buffers, list, pool, pins, t) && PinsShow(pool, pins)
    ensures b in list ==> Cached(pool, b)
  {
    if b in list {
      assert pool[buffers[b]].blk == Some(b);
    }
  }

  lemma PinnedList(buffers: map<BlockId, nat>, list: seq<BlockId>, pool: seq<Buffer>, pins: seq<Pin>, t: nat,
                   b: BlockId, i: nat, pool': seq<Buffer>)
    requires ListShows(buffers, list, pool, pins, t) && PinsShow(pool, pins) && PinnedStay(pool, pool')
    requires i < |pool'| && pool'[i].blk == Some(b)
    ensures ListShows(buffers[b := i], list + [b], pool', pins + [Pin(t, b)], t)
  {
    AddPin(pins, Pin(t, b), t, b);
    forall x | x in buffers
      ensures pool'[buffers[x]].blk == Some(x)
    {
      ListedIsPinned(buffers, list, pool, pins, t, x);
    }
  }

  lemma SameFramesList(buffers: map<BlockId, nat>, list: seq<BlockId>, pool: seq<Buffer>, pool': seq<Buffer>,
                       pins: seq<Pin>, t: nat)
    requires ListShows(buffers, list, pool, pins, t) && SameFrames(pool, pool')
    ensures ListShows(buffers, list, pool', pins, t)
  {}

  /** Giving back the first pin of a transaction. */
  lemma EraseFirstOf(outstanding: seq<Pin>, tx: nat, list: seq<BlockId>)
    requires ListOf(outstanding, tx) == list && list != []
    ensures Pin(tx, list[0]) in outstanding
    ensures var rest := Erase(outstanding, Pin(tx, list[0]));
            ListOf(rest, tx) == list[1..] && forall t | t != tx :: ListOf(rest, t) == ListOf(outstanding, t)
  {
    var p := Pin(tx, list[0]);
    InList(outstanding, tx, list[0]);
    EraseList(outstanding, p, tx);
    forall t | t != tx
      ensures ListOf(Erase(outstanding, p), t) == ListOf(outstanding, t)
    {
      EraseList(outstanding, p, t);
    }
    EraseFront(list[0], list[1..], list[0]);
    assert list == [list[0]] + list[1..];
  }

  class BufferList {
    const bm: BufferMgr
    ghost const tx: nat
    var buffers: map<BlockId, nat>
    var pins: seq<BlockId>

    ghost predicate Shows()
      reads this, bm
    {
      ListShows(buffers, pins, bm.pool, bm.pins, tx)
    }

    constructor (bm: BufferMgr, ghost tx: nat)
      requires ListOf(bm.pins, tx) == []
      ensures Shows() && this.bm == bm && this.tx == tx && pins == []
    {
      this.bm, this.tx := bm, tx;
      buffers, pins := map[], [];
    }

    method GetIndex(blk: BlockId) returns (idx: Option<nat>)
      requires Shows()
      ensures idx.Some? <==> blk in pins
      ensures idx.Some? ==> idx.value < |bm.pool| && bm.pool[idx.value].blk == Some(blk) && buffers[blk] == idx.value
    {
      idx := if blk in buffers then Some(buffers[blk]) else None;
    }

    /** Pins a block for the transaction; fails when the pool has no room. */
    method Pin(blk: BlockId) returns (ok: bool)
      requires bm.Valid() && Shows() && blk in bm.fm.blocks
      modifies this, bm.Footprint()
      ensures bm.Valid() && Shows() && bm.GoesOn() && OnlyFlushes(old(bm.ledger.s), bm.ledger.s)
      ensures pins == if ok then old(pins) + [blk] else old(pins)
      ensures bm.pins == if ok then old(bm.pins) + [PinLists.Pin(tx, blk)] else old(bm.pins)
      ensures ok || (blk !in pins && bm.numAvailable == old(bm.numAvailable) == 0)
      ensures bm.numAvailable <= old(bm.numAvailable) <= bm.numAvailable + 1
      ensures PinnedStay(old(bm.pool), bm.pool)
    {
      hide LogShows, DiskShows, PoolShows, PinsShow, ValidRun, Exec, LogOk, Unpinned, Count, ListShows, ListOf;
      ghost var pool, outstanding := bm.pool, bm.pins;
      ListedCached(buffers, pins, pool, outstanding, tx, blk);
      var idx := bm.TryToPin(blk, tx);
      if idx.None? {
        return false;
      }
      PinnedList(buffers, pins, pool, outstanding, tx, blk, idx.value, bm.pool);
      buffers := buffers[blk := idx.value];
      pins := pins + [blk];
      ok := true;
    }

    /** Gives back one pin; fails when the transaction has none on the block. */
    method Unpin(blk: BlockId) returns (ok: bool, ghost i: nat)
      requires bm.Valid() && Shows()
      modifies this, bm
      ensures bm.Valid() && Shows()
      ensures ok <==> blk in old(pins)
      ensures pins == Erase(old(pins), blk)
      ensures bm.pins == if ok then Erase(old(bm.pins), PinLists.Pin(tx, blk)) else old(bm.pins)
      ensures old(bm.numAvailable) <= bm.numAvailable <= old(bm.numAvailable) + 1
      ensures ok ==> i < |old(bm.pool)| && old(bm.pool)[i].blk == Some(blk)
      ensures ok ==> bm.pool == old(bm.pool)[i := old(bm.pool)[i].(pins := old(bm.pool)[i].pins - 1)]
      ensures !ok ==> bm.pool == old(bm.pool)
    {
      hide LogShows, DiskShows, PoolShows, PinsShow, ValidRun, Exec, LogOk, Unpinned, Count, ListOf, Erase;
      i := 0;
      if blk in buffers {
        var idx := buffers[blk];
        ghost var outstanding, list := bm.pins, pins;
        ListedIsPinned(buffers, pins, bm.pool, outstanding, tx, blk);
        EraseList(outstanding, PinLists.Pin(tx, blk), tx);
        EraseKeepsAll(list, blk);
        bm.Unpin(idx, tx);
        pins := EraseFirst(pins, blk);
        if blk !in pins {
          buffers := buffers - {blk};
        }
        return true, idx;
      }
      EraseAbsent(pins, blk);
      ok := false;
    }

    /** Gives back every pin of the transaction, and no other. */
    method UnpinAll()
      requires bm.Valid() && Shows()
      modifies this, bm
      ensures bm.Valid() && Shows() && pins == [] && buffers == map[]
      ensures ListOf(bm.pins, tx) == []
      ensures forall t | t != tx :: ListOf(bm.pins, t) == ListOf(old(bm.pins), t)
      ensures |bm.pool| == |old(bm.pool)| && forall j | 0 <= j < |bm.pool| :: bm.pool[j].blk == old(bm.pool)[j].blk
      ensures bm.numAvailable >= old(bm.numAvailable)
    {
      hide LogShows, DiskShows, PoolShows, ValidRun, Exec, LogOk, Unpinned, Count, ListOf, Erase, PinsShow;
      var i := 0;
      while i < |pins|
        invariant i <= |pins| && pins == old(pins) && buffers == old(buffers)
        invariant bm.Valid()
        invariant ListOf(bm.pins, tx) == pins[i..]
        invariant forall t | t != tx :: ListOf(bm.pins, t) == ListOf(old(bm.pins), t)
        invariant |bm.pool| == |old(bm.pool)| && forall j | 0 <= j < |bm.pool| :: bm.pool[j].blk == old(bm.pool)[j].blk
        invariant bm.numAvailable >= old(bm.numAvailable)
      {
        EraseFirstOf(bm.pins, tx, pins[i..]);
        assert pins[i..][1..] == pins[i + 1..];
        bm.Unpin(buffers[pins[i]], tx);
        i := i + 1;
      }
      buffers, pins := map[], [];
    }
  }

  /** `std::find` and `erase` on a vector. */
  method EraseFirst(s: seq<BlockId>, x: BlockId) returns (r: seq<BlockId>)
    ensures r == Erase(s, x)
  {
    for i := 0 to |s|
      invariant x !in s[..i]
    {
      if s[i] == x {
        EraseAt(s, x, i);
        return s[..i] + s[i + 1..];
      }
    }
    EraseAbsent(s, x);
    r := s;
  }

  lemma {:induction false} EraseAt<T>(s: seq<T>, x: T, i: nat)
    requires i < |s| && s[i] == x && x !in s[..i]
    ensures Erase(s, x) == s[..i] + s[i + 1..]
  {
    if i > 0 {
      assert x !in s[1..][..i - 1] by {
        assert s[1..][..i - 1] == s[1..i];
      }
      EraseAt(s[1..], x, i - 1);
      assert s[..i] == [s[0]] + s[1..][..i - 1];
      assert s[1..][i..] == s[i + 1..];
    }
  }

  lemma EraseKeepsAll<T>(s: seq<T>, x: T)
    ensures forall y | y != x :: y in Erase(s, x) <==> y in s
  {
    forall y | y != x
      ensures y in Erase(s, x) <==> y in s
    {
      EraseKeeps(s, x, y);
    }
  }

  lemma {:induction false} EraseAbsent<T>(s: seq<T>, x: T)
    requires x !in s
    ensures Erase(s, x) == s
  {
    if s != [] {
      EraseAbsent(s[1..], x);
    }
  }

  // ---------------------------------------------------------------------------------------------
  // Transactions
  // ---------------------------------------------------------------------------------------------

  /** The process-wide counter of transaction numbers; it starts again at zero in every process. */
  class TxNumbers {
    var last: nat

    constructor ()
      ensures last == 0
    {
      last := 0;
    }

    method Next() returns (n: nat)
      modifies this
      ensures n == last == old(last) + 1
    {
      last := last + 1;
      n := last;
    }
  }

  /** Other transactions find their buffers where they left them. */
  ghost predicate OthersKept(pool: seq<Buffer>, pins: seq<Pin>, pool': seq<Buffer>, pins': seq<Pin>, t: nat) {
    && PinnedKeepBlock(pool, pool')
    && forall t' | t' != t :: ListOf(pins', t') == ListOf(pins, t')
  }

  /** The step appends record `r` and changes nothing that the pool or the data file shows. */
  predicate AppendsOnly(s: State, s': State, r: LogRecord, spill: bool) {
    && s'.log == s.log + [r] && s'.saved == (if spill then |s.log| else s.saved)
    && s'.base == s.base && s'.cur == s.cur && s'.disk == s.disk && s'.dirty == s.dirty
  }

  /** The step flushes the log and changes nothing that the pool or the data file shows. */
  predicate FlushesLog(s: State, s': State) {
    && s'.log == s.log && s'.saved == |s.log| && s'.base == s.base
    && s'.cur == s.cur && s'.disk == s.disk && s'.dirty == s.dirty
  }

  /** What other unfinished transactions have written is on disk no more than before. */
  ghost predicate OthersHeld(s: State, s': State, t: nat) {
    forall l | l in s.disk && l.blk in s.owner && s.owner[l.blk] != t :: l in s'.disk && s'.disk[l] == s.disk[l]
  }

  /** Transaction `t` and what it owned are gone; every other transaction is where it was. */
  predicate Finished(s: State, s': State, t: nat) {
    s'.txs == s.txs - {t} && s'.owner == Released(s.owner, t) && s'.next == s.next && s'.mode == s.mode
  }

  lemma OthersNotFlushed(d: Store, s: State, s': State, t: nat)
    requires Inv(d, s) && s.mode.Running? && FlushesOf(s, s', t)
    ensures OthersHeld(s, s', t)
  {
    OwnedDirty(d, s);
    hide Inv;
  }

  lemma OwnedDirty(d: Store, s: State)
    requires Inv(d, s) && s.mode.Running?
    ensures DirtyOwned(s.dirty, s.owner)
  {
    hide Faithful, GoodHistory, WriteAhead, DirtyWhereDifferent, TxsOk, Holders, DirtyOwned, TxTable, Undo;
  }

  /** Records that end a transaction change nothing about that. */
  lemma FlushesThen(s: State, m: State, s': State, t: nat)
    requires FlushesOf(s, m, t) && s'.disk == m.disk && s'.dirty == m.dirty
    ensures FlushesOf(s, s', t)
  {}

  /** The two steps that commit a transaction. */
  lemma CommitSteps(s: State, t: nat, spill: bool)
    requires Enabled(s, AppendCommit(t, spill)) && s.base <= s.saved <= |s.log|
    ensures var s1 := Apply(s, AppendCommit(t, spill));
            && AppendsOnly(s, s1, Commit(t), spill) && s1.base <= |s1.log| && Enabled(s1, EndCommit(t))
            && var s2 := Apply(s1, EndCommit(t));
            && FlushesLog(s1, s2) && s2.hist == s.hist + [Committed(t)] && Finished(s, s2, t)
  {}

  /** Transaction `t` is rolling back; every other transaction is where it was. */
  predicate InRollback(s: State, s': State, t: nat) {
    && s'.mode.Running? && t in s'.txs && s'.txs[t].RollingBack?
    && s'.txs == s.txs[t := s'.txs[t]] && s'.owner == s.owner && s'.next == s.next
  }

  /** The two steps at the end of a rollback. */
  lemma RollbackSteps(s: State, t: nat, spill: bool)
    requires Enabled(s, AppendRollback(t, spill)) && s.base <= s.saved <= |s.log|
    ensures var s1 := Apply(s, AppendRollback(t, spill));
            && AppendsOnly(s, s1, Rollback(t), spill) && s1.base <= |s1.log| && Enabled(s1, EndRollback(t))
            && var s2 := Apply(s1, EndRollback(t));
            && FlushesLog(s1, s2) && s2.hist == s.hist + [RolledBack(t)] && Finished(s, s2, t)
  {}

  /** The two steps at the end of recovery. */
  lemma CheckpointSteps(s: State, spill: bool)
    requires Enabled(s, AppendCheckpoint(spill)) && s.base <= |s.log|
    ensures var s1 := Apply(s, AppendCheckpoint(spill));
            && AppendsOnly(s, s1, Checkpoint, spill) && s1.base <= |s1.log| && Enabled(s1, EndRecovery)
            && s1.hist == s.hist + [Recovered] && s1.mode.Checkpointing?
            && var s2 := Apply(s1, EndRecovery);
            && FlushesLog(s1, s2) && s2.hist == s1.hist && s2.mode.Running? && s2.txs == map[s.next := TxPhase.Active]
            && s2.next == s.next && s2.owner == s.owner
  {}

  /** Recovery is complete behind history `h`, and `t` is the only transaction. */
  ghost predicate IsRecovered(s: State, d: Store, h: seq<Event>, t: nat) {
    && s.hist == h + [Recovered] && s.saved == |s.log| && s.txs == map[t := TxPhase.Active]
    && s.cur == s.disk == CommittedStore(d, h)
  }

  /** Transaction `t` has begun, or is going to recover; nothing else has changed but the log. */
  predicate IsBegun(s: State, s': State, t: nat) {
    && s'.hist == s.hist + [Began(t)] && s'.next == t && s'.owner == s.owner && s'.cur == s.cur && s'.disk == s.disk
    && (if s.mode.Running? then s'.mode.Running? && s'.txs == s.txs[t := TxPhase.Active] else s'.mode.Restarted?)
  }

  /** The step that begins a transaction, in a running engine or right after a crash. */
  lemma BeginStep(s: State, spill: bool)
    requires s.base <= |s.log| && (s.mode.Running? || (s.mode.Down? && s.next == 0))
    ensures var step := if s.mode.Running? then Begin(spill) else Step.Restart(spill);
            && Enabled(s, step)
            && var s' := Apply(s, step);
            && AppendsOnly(s, s', Start(s.next + 1), spill) && IsBegun(s, s', s.next + 1)
  {}

  /** The next record that transaction `t` has to undo. */
  predicate NextUndo(s: State, t: nat, r: LogRecord) {
    var todo := if s.mode.Recovering? && t == s.next then s.mode.todo
                else if InPhase(s, t) && s.txs[t].RollingBack? then s.txs[t].todo
                else [];
    todo != [] && todo[0] == r
  }

  /** The step that undoes the next record. */
  function UndoStepOf(s: State, t: nat, stale: Option<nat>): Step {
    if s.mode.Recovering? then UndoRecovery(stale) else UndoRollback(t, stale)
  }

  class Transaction {
    const lm: LogMgr
    const bm: BufferMgr
    const txnum: nat
    const mybuffers: BufferList

    ghost function Footprint(): set<object>
    {
      bm.Footprint() + {mybuffers}
    }

    ghost predicate Live()
      reads Footprint()
    {
      && bm.Valid() && lm == bm.lm
      && mybuffers.bm == bm && mybuffers.tx == txnum && mybuffers.Shows()
    }

    ghost predicate Active()
      reads Footprint()
    {
      Live() && InPhase(bm.ledger.s, txnum) && bm.ledger.s.txs[txnum].Active?
    }

    /** A record can be written and will be read back as it was. */
    ghost predicate Recordable(r: LogRecord)
      reads lm.file
    {
      Encodable(r) && Representable(r) && Fits(Encode(r), lm.file.blocksize)
    }

    /** Appends the bytes of record `r`, which is step `step` of the engine. */
    method AppendRecord(rec: seq<byte>, ghost r: LogRecord, ghost step: Step) returns (lsn: nat)
      requires bm.Valid() && lm == bm.lm && Recordable(r) && rec == Encode(r)
      requires bm.ledger.s.base <= |bm.ledger.s.log| && Enabled(bm.ledger.s, step)
      requires AppendsOnly(bm.ledger.s, Apply(bm.ledger.s, step), r, Full(lm.logpage.bb[..], rec))
      modifies bm.Footprint()
      ensures bm.Valid() && bm.GoesOn() && bm.ledger.s == Apply(old(bm.ledger.s), step)
      ensures bm.pool == old(bm.pool) && bm.pins == old(bm.pins) && bm.numAvailable == old(bm.numAvailable)
      ensures bm.fm.blocks == old(bm.fm.blocks)
      ensures bm.ledger.s.base + lsn == |bm.ledger.s.log|
    {
      hide Full, PageRecords, BytesOf, StandsAt;
      hide LogOk, AllRecords, FileRecords, Encodes, DiskShows, PoolShows, PinsShow, ValidRun, Exec, Encode, AppendState;
      ghost var s := bm.ledger.s;
      AppendShows(lm.State(), s.log, s.saved, s.base, r);
      lsn := lm.Append(rec);
      bm.ledger.Do(step);
    }

    /** Flushes the log up to the newest record, which is step `step` of the engine. */
    method FlushRecords(lsn: nat, ghost step: Step)
      requires bm.Valid() && lm == bm.lm
      requires bm.ledger.s.base + lsn == |bm.ledger.s.log| && Enabled(bm.ledger.s, step)
      requires FlushesLog(bm.ledger.s, Apply(bm.ledger.s, step))
      modifies bm.Footprint()
      ensures bm.Valid() && bm.GoesOn() && bm.ledger.s == Apply(old(bm.ledger.s), step)
      ensures bm.pool == old(bm.pool) && bm.pins == old(bm.pins) && bm.numAvailable == old(bm.numAvailable)
      ensures bm.fm.blocks == old(bm.fm.blocks)
    {
      hide LogOk, AllRecords, FileRecords, Encodes, DiskShows, PoolShows, PinsShow, ValidRun, Exec;
      ghost var s := bm.ledger.s;
      FlushShows(lm.State(), s.log, s.saved, s.base);
      SavedBound(lm.State());
      lm.Flush(lsn);
      bm.ledger.Do(step);
    }

    /**
     A new transaction: takes the next number and writes its START record. The first one of a process that
     finds an existing database must go on to `Recover`.
     */
    constructor (nums: TxNumbers, lm: LogMgr, bm: BufferMgr)
      requires bm.Valid() && lm == bm.lm
      requires nums.last == bm.ledger.s.next < 0x7fff_ffff && 16 <= lm.file.blocksize
      requires bm.ledger.s.mode.Running? || (bm.ledger.s.mode.Down? && nums.last == 0)
      requires ListOf(bm.pins, nums.last + 1) == []
      modifies nums, bm.Footprint()
      ensures Live() && fresh(mybuffers) && this.bm == bm && bm.GoesOn()
      ensures txnum == nums.last == bm.ledger.s.next == old(nums.last) + 1
      ensures if old(bm.ledger.s).mode.Running? then Active() else bm.ledger.s.mode.Restarted?
      ensures old(bm.ledger.s).mode.Running? ==> bm.ledger.s.txs == old(bm.ledger.s).txs[txnum := TxPhase.Active]
      ensures bm.ledger.s.owner == old(bm.ledger.s).owner
      ensures bm.ledger.s.hist == old(bm.ledger.s).hist + [Began(txnum)]
      ensures bm.ledger.s.cur == old(bm.ledger.s).cur && bm.ledger.s.disk == old(bm.ledger.s).disk
      ensures bm.pool == old(bm.pool) && bm.pins == old(bm.pins) && bm.fm.blocks == old(bm.fm.blocks)
      ensures mybuffers.pins == []
    {
      hide LogShows, DiskShows, PoolShows, PinsShow, ValidRun, Exec, LogOk;
      hide Encodes, Unpinned, Inv, Full, AllRecords, FileRecords, Apply;
      var n := nums.Next();
      this.lm, this.bm, txnum := lm, bm, n;
      mybuffers := new BufferList(bm, n);
      new;
      hide ListShows, ListOf;
      LogStart();
    }

    /** `RecoveryMgr::RecoveryMgr`. */
    method LogStart()
      requires Live() && txnum == bm.ledger.s.next + 1 <= 0x7fff_ffff && 16 <= lm.file.blocksize
      requires bm.ledger.s.mode.Running? || (bm.ledger.s.mode.Down? && bm.ledger.s.next == 0)
      modifies bm.Footprint()
      ensures Live() && bm.GoesOn()
      ensures IsBegun(old(bm.ledger.s), bm.ledger.s, txnum)
      ensures bm.pool == old(bm.pool) && bm.pins == old(bm.pins) && bm.fm.blocks == old(bm.fm.blocks)
      ensures bm.numAvailable == old(bm.numAvailable)
    {
      hide LogShows, DiskShows, PoolShows, PinsShow, ValidRun, Exec, LogOk, ListShows, ListOf;
      hide Encodes, Unpinned, Inv, Full, AllRecords, FileRecords, Apply;
      bm.ledger.Holds();
      var rec := StatusBytes(OP_START, txnum);
      ghost var spill := Full(lm.logpage.bb[..], rec);
      ghost var step := if bm.ledger.s.mode.Running? then Begin(spill) else Step.Restart(spill);
      InvFacts(bm.ledger.init, bm.ledger.s);
      BeginStep(bm.ledger.s, spill);
      var lsn := AppendRecord(rec, Start(txnum), step);
    }

    /** While other transactions work, pin, evict, commit and roll back, this one stays active and finds its buffers. */
    twostate lemma OtherStays(t: nat)
      requires old(Active()) && unchanged(mybuffers) && t != txnum
      requires bm.Valid() && OthersKept(old(bm.pool), old(bm.pins), bm.pool, bm.pins, t)
      requires InPhase(bm.ledger.s, txnum) && bm.ledger.s.txs[txnum] == old(bm.ledger.s).txs[txnum]
      ensures Active()
    {
      hide PinsShow, PoolShows, DiskShows, LogShows, ListOf;
      OtherListStays(mybuffers.buffers, mybuffers.pins, txnum, old(bm.pool), old(bm.pins), bm.pool, bm.pins);
    }

    method Pin(blk: BlockId) returns (ok: bool)
      requires Live() && blk in bm.fm.blocks
      modifies Footprint()
      ensures Live() && bm.GoesOn() && OnlyFlushes(old(bm.ledger.s), bm.ledger.s)
      ensures mybuffers.pins == if ok then old(mybuffers.pins) + [blk] else old(mybuffers.pins)
      ensures OthersKept(old(bm.pool), old(bm.pins), bm.pool, bm.pins, txnum)
    {
      hide LogShows, DiskShows, PoolShows, PinsShow, ValidRun, Exec, LogOk, ListOf;
      ok := mybuffers.Pin(blk);
      if ok {
        forall t
          ensures ListOf(bm.pins, t) == ListOf(old(bm.pins), t) + if t == txnum then [blk] else []
        {
          AddPin(old(bm.pins), PinLists.Pin(txnum, blk), t, blk);
        }
      }
    }

    method Unpin(blk: BlockId) returns (ok: bool)
      requires Live()
      modifies mybuffers, bm
      ensures Live() && (ok <==> blk in old(mybuffers.pins)) && mybuffers.pins == Erase(old(mybuffers.pins), blk)
      ensures OthersKept(old(bm.pool), old(bm.pins), bm.pool, bm.pins, txnum)
    {
      hide LogShows, DiskShows, PoolShows, PinsShow, ValidRun, Exec, LogOk, ListOf, Erase;
      InList(bm.pins, txnum, blk);
      ghost var i;
      ok, i := mybuffers.Unpin(blk);
      if ok {
        forall t | t != txnum
          ensures ListOf(bm.pins, t) == ListOf(old(bm.pins), t)
        {
          EraseList(old(bm.pins), PinLists.Pin(txnum, blk), t);
        }
      }
    }

    /** `get_int` and `get_string`: what a pinned block holds now; `None` where the source throws. */
    method GetValue(blk: BlockId, off: nat) returns (v: Option<Value>)
      requires Live()
      requires blk in mybuffers.pins ==> Loc(blk, off) in bm.ledger.s.cur
      ensures v == if blk in mybuffers.pins then Some(bm.ledger.s.cur[Loc(blk, off)]) else None
    {
      hide LogShows, PinsShow, ValidRun, Exec, LogOk, ListOf;
      var idx := mybuffers.GetIndex(blk);
      if idx.None? {
        return None;
      }
      bm.ledger.Holds();
      assert BufferShows(bm.pool[idx.value], bm.fm.blocks, bm.ledger.s.cur, bm.ledger.s.dirty);
      v := Some(bm.pool[idx.value].contents[off]);
    }

    /** When the location may be set: logged under the write lock, unlogged by an undo or without a change. */
    ghost predicate MaySet(blk: BlockId, off: nat, v: Value, okToLog: bool, undo: Option<LogRecord>)
      reads Footprint(), lm.file
    {
      var s, l := bm.ledger.s, Loc(blk, off);
      && l in s.cur
      && if okToLog then
           MayWrite(s, txnum, blk) && SameKind(s.cur[l], v) && Recordable(UpdateRecord(txnum, l, s.cur[l]))
         else if undo.Some? then
           && NextUndo(s, txnum, undo.value) && undo.value.IsSet()
           && undo.value.Where() == l && undo.value.OldValue() == v
         else MayWrite(s, txnum, blk) && s.cur[l] == v
    }

    /** `RecoveryMgr::set_int` and `set_string`: logs the value that is about to be overwritten. */
    method LogOldValue(i: nat, blk: BlockId, off: nat) returns (lsn: nat, ghost spill: bool)
      requires lm == bm.lm && lm.Valid()
      requires LogShows(lm.State(), bm.ledger.s.log, bm.ledger.s.saved, bm.ledger.s.base)
      requires i < |bm.pool| && off in bm.pool[i].contents
      requires Recordable(UpdateRecord(txnum, Loc(blk, off), bm.pool[i].contents[off]))
      modifies lm, lm.file, lm.logpage.bb
      ensures lm.Valid() && var s := bm.ledger.s;
              var r := UpdateRecord(txnum, Loc(blk, off), bm.pool[i].contents[off]);
              && LogShows(lm.State(), s.log + [r], if spill then |s.log| else s.saved, s.base)
              && s.base + lsn == |s.log| + 1
    {
      hide LogOk, AllRecords, FileRecords, Encodes, Encode, AppendState;
      ghost var s, ls := bm.ledger.s, lm.State();
      ghost var r := UpdateRecord(txnum, Loc(blk, off), bm.pool[i].contents[off]);
      AppendShows(ls, s.log, s.saved, s.base, r);
      var rec;
      match bm.pool[i].contents[off] {
        case IntVal(n) => rec := SetIntBytes(txnum, blk, off, n);
        case StrVal(t) => rec := SetStringBytes(txnum, blk, off, t);
      }
      spill := Full(ls.page, rec);
      lsn := lm.Append(rec);
    }

    /** The change in memory that step `step` makes; what the step logs is already in the log. */
    method PutValue(i: nat, blk: BlockId, off: nat, v: Value, lsn: Option<nat>, ghost step: Step)
      requires bm.ledger.Valid() && bm.ledger.s.base <= |bm.ledger.s.log| && Enabled(bm.ledger.s, step)
      requires var s' := Apply(bm.ledger.s, step); bm.lm.Valid() && LogShows(bm.lm.State(), s'.log, s'.saved, s'.base)
      requires DiskShows(bm.fm.blocks, bm.ledger.s.disk)
      requires PoolShows(bm.pool, bm.fm.blocks, bm.ledger.s.cur, bm.ledger.s.dirty)
      requires PinsShow(bm.pool, bm.pins) && bm.numAvailable == Unpinned(bm.pool)
      requires i < |bm.pool| && bm.pool[i].blk == Some(blk) && off in bm.pool[i].contents
      requires Sets(bm.ledger.s, Apply(bm.ledger.s, step), txnum, Loc(blk, off), v,
                    if lsn.Some? then lsn else bm.pool[i].lsn)
      modifies bm`pool, bm.ledger
      ensures bm.Valid() && bm.GoesOn() && bm.ledger.s == Apply(old(bm.ledger.s), step)
      ensures SameFrames(old(bm.pool), bm.pool)
    {
      hide Apply, Enabled, LogShows, LogOk, DiskShows, PoolShows, PinsShow, Unpinned, ValidRun, Exec;
      ghost var s, pool := bm.ledger.s, bm.pool;
      bm.SetContents(i, off, v);
      bm.SetModified(i, txnum, lsn);
      ghost var newLsn := if lsn.Some? then lsn else pool[i].lsn;
      ghost var bf := pool[i].(contents := pool[i].contents[off := v], txnum := Some(txnum), lsn := newLsn);
      assert bm.pool == pool[i := bf];
      WrittenPool(pool, i, bm.fm.blocks, s.cur, s.dirty, bm.pins, blk, off, v, txnum, newLsn);
      bm.ledger.Do(step);
    }

    /** The step that a setting is, once it is known that it may be done. */
    lemma SettingChosen(step: Step, blk: BlockId, off: nat, v: Value, okToLog: bool, undo: Option<LogRecord>)
      requires bm.ledger.s.base <= |bm.ledger.s.log| && MaySet(blk, off, v, okToLog, undo)
      requires if okToLog then step.Write? && step == Write(txnum, Loc(blk, off), v, step.spill)
               else if undo.Some? then exists stale :: step == UndoStepOf(bm.ledger.s, txnum, stale)
               else step.Touch? && step == Touch(txnum, blk, step.stale)
      ensures IsSettingStep(bm.ledger.s, step, txnum, Loc(blk, off), v, okToLog, undo)
    {}

    /** Sets a value in the buffer of a pinned block. */
    method SetPinned(i: nat, blk: BlockId, off: nat, v: Value, okToLog: bool, ghost undo: Option<LogRecord>)
      returns (ghost step: Step)
      requires Live() && i < |bm.pool| && bm.pool[i].blk == Some(blk) && MaySet(blk, off, v, okToLog, undo)
      modifies bm.lm, bm.lm.file, bm.lm.logpage.bb, bm`pool, bm.ledger
      ensures bm.Valid() && bm.GoesOn() && SameFrames(old(bm.pool), bm.pool)
      ensures IsSettingStep(old(bm.ledger.s), step, txnum, Loc(blk, off), v, okToLog, undo)
      ensures bm.ledger.s == Apply(old(bm.ledger.s), step)
    {
      hide LogShows, LogOk, DiskShows, PoolShows, PinsShow, ValidRun, Exec, Encode;
      hide Unpinned, ListOf, Apply, Inv, ListShows, IsSettingStep, Enabled;
      bm.ledger.Holds();
      ghost var s, l := bm.ledger.s, Loc(blk, off);
      InvFacts(bm.ledger.init, s);
      ShownValue(bm.pool, i, bm.fm.blocks, s, blk, off);
      var lsn := None;
      if okToLog {
        SettingChosen(Write(txnum, l, v, false), blk, off, v, okToLog, undo);
        SettingChosen(Write(txnum, l, v, true), blk, off, v, okToLog, undo);
        var n;
        ghost var spill;
        n, spill := LogOldValue(i, blk, off);
        lsn := Some(n);
        step := Write(txnum, l, v, spill);
      } else {
        step := if undo.Some? then UndoStepOf(s, txnum, bm.pool[i].lsn) else Touch(txnum, blk, bm.pool[i].lsn);
        SettingChosen(step, blk, off, v, okToLog, undo);
      }
      SettingEnabled(s, step, txnum, l, v, okToLog, undo);
      SettingStep(s, step, txnum, l, v, okToLog, undo, if lsn.Some? then lsn else bm.pool[i].lsn);
      PutValue(i, blk, off, v, lsn, step);
    }

    /** `set_int` and `set_string`; fails where the source throws, when the block is not pinned. */
    method SetValue(blk: BlockId, off: nat, v: Value, okToLog: bool, ghost undo: Option<LogRecord>)
      returns (ok: bool, ghost step: Step)
      requires Live()
      requires blk in mybuffers.pins ==> MaySet(blk, off, v, okToLog, undo)
      modifies bm.Footprint()
      ensures Live() && bm.GoesOn() && (ok <==> blk in mybuffers.pins)
      ensures bm.pins == old(bm.pins) && bm.numAvailable == old(bm.numAvailable) && bm.fm.blocks == old(bm.fm.blocks)
      ensures SameFrames(old(bm.pool), bm.pool)
      ensures !ok ==> bm.ledger.s == old(bm.ledger.s) && bm.pool == old(bm.pool)
      ensures ok ==> IsSettingStep(old(bm.ledger.s), step, txnum, Loc(blk, off), v, okToLog, undo)
      ensures ok ==> bm.ledger.s == Apply(old(bm.ledger.s), step)
    {
      hide LogShows, LogOk, DiskShows, PoolShows, PinsShow, ValidRun, Exec, Encode;
      hide Unpinned, ListOf, Apply, Inv, IsSettingStep, Enabled;
      step := FlushLog;
      var idx := mybuffers.GetIndex(blk);
      if idx.None? {
        return false, step;
      }
      hide ListShows;
      step := SetPinned(idx.value, blk, off, v, okToLog, undo);
      SameFramesList(mybuffers.buffers, mybuffers.pins, old(bm.pool), bm.pool, bm.pins, txnum);
      ok := true;
    }

    method SetInt(blk: BlockId, off: nat, val: int32, okToLog: bool) returns (ok: bool)
      requires Active()
      requires blk in mybuffers.pins ==> MaySet(blk, off, IntVal(val), okToLog, None)
      modifies bm.Footprint()
      ensures Active() && bm.GoesOn() && (ok <==> blk in mybuffers.pins)
      ensures var s, s' := old(bm.ledger.s), bm.ledger.s;
              Written(s, s', txnum, Loc(blk, off), IntVal(val), ok, okToLog)
      ensures OthersKept(old(bm.pool), old(bm.pins), bm.pool, bm.pins, txnum) && bm.pins == old(bm.pins)
    {
      hide LogShows, PinsShow, ValidRun, Exec, LogOk, ListShows, ListOf, PoolShows, DiskShows, Unpinned, Recordable;
      ghost var step;
      ok, step := SetValue(blk, off, IntVal(val), okToLog, None);
    }

    method SetString(blk: BlockId, off: nat, val: Str, okToLog: bool) returns (ok: bool)
      requires Active()
      requires blk in mybuffers.pins ==> MaySet(blk, off, StrVal(val), okToLog, None)
      modifies bm.Footprint()
      ensures Active() && bm.GoesOn() && (ok <==> blk in mybuffers.pins)
      ensures var s, s' := old(bm.ledger.s), bm.ledger.s;
              Written(s, s', txnum, Loc(blk, off), StrVal(val), ok, okToLog)
      ensures OthersKept(old(bm.pool), old(bm.pins), bm.pool, bm.pins, txnum) && bm.pins == old(bm.pins)
    {
      hide LogShows, PinsShow, ValidRun, Exec, LogOk, ListShows, ListOf, PoolShows, DiskShows, Unpinned, Recordable;
      ghost var step;
      ok, step := SetValue(blk, off, StrVal(val), okToLog, None);
    }

    // -------------------------------------------------------------------------------------------
    // Commit
    // -------------------------------------------------------------------------------------------

    /** Writes and flushes the COMMIT record, behind the flush of the blocks. */
    method LogCommit()
      requires Active() && 16 <= lm.file.blocksize && Survives(txnum) && NoDirty(bm.ledger.s.dirty, txnum)
      modifies bm.Footprint()
      ensures Live() && bm.GoesOn() && bm.pool == old(bm.pool) && bm.pins == old(bm.pins)
      ensures bm.fm.blocks == old(bm.fm.blocks)
      ensures var s, s' := old(bm.ledger.s), bm.ledger.s;
              && s'.log == s.log + [LogRecord.Commit(txnum)] && s'.hist == s.hist + [Committed(txnum)]
              && s'.saved == |s'.log| && s'.cur == s.cur && s'.disk == s.disk && s'.dirty == s.dirty
              && s'.mode.Running? && Finished(s, s', txnum)
              && forall l | l in EntryOf(RefOf(bm.ledger.init, s.hist).pending, txnum) ::
                   HoldsPending(s'.disk, RefOf(bm.ledger.init, s.hist), txnum, l)
    {
      hide LogShows, DiskShows, PoolShows, PinsShow, Unpinned, ValidRun, Exec, LogOk, Inv, ListOf, ListShows, Apply;
      bm.ledger.Holds();
      ghost var s := bm.ledger.s;
      InvFacts(bm.ledger.init, s);
      CommitValues(bm.ledger.init, s, txnum);
      PendingHeld(bm.ledger.init, s, txnum);
      var rec := StatusBytes(OP_COMMIT, txnum);
      ghost var spill := Full(lm.logpage.bb[..], rec);
      CommitSteps(s, txnum, spill);
      Conclude(rec, LogRecord.Commit(txnum), AppendCommit(txnum, spill), EndCommit(txnum));
    }

    /**
     Writes the transaction's blocks back, then the COMMIT record, then gives back its pins. Whatever the
     transaction wrote is then committed, and on disk.
     */
    method Commit()
      requires Active() && 16 <= lm.file.blocksize && Survives(txnum)
      modifies Footprint()
      ensures Live() && bm.GoesOn()
      ensures var s, s' := old(bm.ledger.s), bm.ledger.s;
              && s'.log == s.log + [LogRecord.Commit(txnum)] && s'.hist == s.hist + [Committed(txnum)]
              && s'.saved == |s'.log| && s'.cur == s.cur && s'.mode.Running? && Finished(s, s', txnum)
              && forall l | l in EntryOf(RefOf(bm.ledger.init, s.hist).pending, txnum) ::
                   HoldsPending(s'.disk, RefOf(bm.ledger.init, s.hist), txnum, l)
      ensures FlushesOf(old(bm.ledger.s), bm.ledger.s, txnum) && FilesKept(old(bm.ledger.s).dirty, old(bm.fm.blocks))
      ensures OthersHeld(old(bm.ledger.s), bm.ledger.s, txnum)
      ensures mybuffers.pins == [] && OthersKept(old(bm.pool), old(bm.pins), bm.pool, bm.pins, txnum)
    {
      hide LogShows, DiskShows, PoolShows, PinsShow, Unpinned, ValidRun, Exec, LogOk, Inv, ListOf, ListShows, Apply;
      hide FlushesOf, OthersHeld;
      ghost var before := bm.ledger.s;
      bm.ledger.Holds();
      FlushMine();
      ghost var s := bm.ledger.s;
      LogCommit();
      FlushesThen(before, s, bm.ledger.s, txnum);
      OthersNotFlushed(bm.ledger.init, before, bm.ledger.s, txnum);
      mybuffers.UnpinAll();
    }

    // -------------------------------------------------------------------------------------------
    // Undo
    // -------------------------------------------------------------------------------------------

    /** `LogRecord::undo`: restores the old value without logging; fails when the pool has no room. */
    method UndoRecord(rec: LogRecord) returns (ok: bool)
      requires Live() && NextUndo(bm.ledger.s, txnum, rec)
      requires rec.IsSet() ==> rec.Where() in bm.ledger.s.cur
      modifies Footprint()
      ensures Live() && bm.GoesOn()
      ensures ok ==> UndoneNext(old(bm.ledger.s), bm.ledger.s, txnum, rec)
      ensures !ok ==> OnlyFlushes(old(bm.ledger.s), bm.ledger.s)
      ensures old(bm.numAvailable) > 0 ==> ok
      ensures old(mybuffers.pins) == [] ==> mybuffers.pins == []
      ensures forall b :: Count(bm.pins, b) == Count(old(bm.pins), b)
      ensures |bm.pins| == |old(bm.pins)|
      ensures OthersKept(old(bm.pool), old(bm.pins), bm.pool, bm.pins, txnum)
    {
      hide LogShows, DiskShows, PoolShows, PinsShow, Unpinned, ValidRun, Exec, LogOk, Inv, ListOf, ListShows, Count;
      bm.ledger.Holds();
      InvFacts(bm.ledger.init, bm.ledger.s);
      ghost var step;
      if rec.SetInt? {
        ok, step := UndoValue(rec, rec.blk, rec.offset, IntVal(rec.ival));
      } else if rec.SetString? {
        ok, step := UndoValue(rec, rec.blk, rec.offset, StrVal(rec.sval));
      } else {
        bm.ledger.Do(UndoStepOf(bm.ledger.s, txnum, None));
        ok := true;
      }
    }

    /** Sets the old value of a record, unlogged, and gives back the pin. */
    method SetAndUnpin(ghost rec: LogRecord, blk: BlockId, off: nat, v: Value) returns (ghost step: Step)
      requires Live() && blk in mybuffers.pins && MaySet(blk, off, v, false, Some(rec))
      modifies Footprint()
      ensures Live() && bm.GoesOn()
      ensures IsSettingStep(old(bm.ledger.s), step, txnum, Loc(blk, off), v, false, Some(rec))
      ensures bm.ledger.s == Apply(old(bm.ledger.s), step)
      ensures bm.pins == Erase(old(bm.pins), PinLists.Pin(txnum, blk))
      ensures mybuffers.pins == Erase(old(mybuffers.pins), blk)
      ensures |bm.pool| == |old(bm.pool)| && forall j | 0 <= j < |bm.pool| :: bm.pool[j].blk == old(bm.pool)[j].blk
    {
      hide LogShows, DiskShows, PoolShows, PinsShow, Unpinned, ValidRun, Exec, LogOk, Inv, ListOf, ListShows, Count,
           Erase, Apply, Enabled, IsSettingStep;
      var ok;
      ok, step := SetValue(blk, off, v, false, Some(rec));
      ghost var i;
      ok, i := mybuffers.Unpin(blk);
    }

    /** Pins the block, sets the value unlogged, unpins the block. */
    method UndoValue(ghost rec: LogRecord, blk: BlockId, off: nat, v: Value) returns (ok: bool, ghost step: Step)
      requires Live() && NextUndo(bm.ledger.s, txnum, rec)
      requires rec.IsSet() && rec.Where() == Loc(blk, off) && rec.OldValue() == v && Loc(blk, off) in bm.ledger.s.cur
      modifies Footprint()
      ensures Live() && bm.GoesOn()
      ensures ok ==> UndoneNext(old(bm.ledger.s), bm.ledger.s, txnum, rec)
      ensures !ok ==> OnlyFlushes(old(bm.ledger.s), bm.ledger.s)
      ensures old(bm.numAvailable) > 0 ==> ok
      ensures old(mybuffers.pins) == [] ==> mybuffers.pins == []
      ensures forall b :: Count(bm.pins, b) == Count(old(bm.pins), b)
      ensures |bm.pins| == |old(bm.pins)|
      ensures OthersKept(old(bm.pool), old(bm.pins), bm.pool, bm.pins, txnum)
    {
      hide LogShows, DiskShows, PoolShows, PinsShow, Unpinned, ValidRun, Exec, LogOk, Inv, ListOf, ListShows, Count,
           Erase;
      hide Apply, Enabled, UndoneNext, OthersKept, IsSettingStep;
      bm.ledger.Holds();
      InvFacts(bm.ledger.init, bm.ledger.s);
      BlockExists(bm.fm.blocks, bm.ledger.s.disk, Loc(blk, off));
      ghost var pool, pins, list := bm.pool, bm.pins, mybuffers.pins;
      step := FlushLog;
      ok := mybuffers.Pin(blk);
      if !ok {
        UndoneFrames(pool, bm.pool, bm.pool, pins, bm.pins, txnum);
        return false, step;
      }
      ghost var m, pool' := bm.ledger.s, bm.pool;
      step := SetAndUnpin(rec, blk, off, v);
      PinUnpin(pins, list, txnum, blk);
      UndoneThroughFlush(old(bm.ledger.s), m, step, txnum, rec);
      UndoneFrames(pool, pool', bm.pool, pins, bm.pins, txnum);
    }

    // -------------------------------------------------------------------------------------------
    // Rollback
    // -------------------------------------------------------------------------------------------

    /** The first loop of `do_rollback`: reads back to the START record of the transaction. */
    method ScanOwn(iter: LogIterator, ghost lg: seq<LogRecord>) returns (recs: seq<LogRecord>)
      requires iter.Valid() && Encodes(iter.Remaining(), lg)
      modifies iter, iter.page.bb
      ensures recs == RollbackList(lg, txnum)
    {
      hide Decode, Encode, RollbackList, Encodes, FileRecords, RecordsFrom, PackedFrom;
      recs := [];
      ghost var n := |lg|;
      assert lg[..n] == lg;
      EncodesSome(iter.Remaining(), lg, n);
      var more := iter.HasNext();
      while more
        invariant iter.Valid() && 0 <= n <= |lg| && Encodes(iter.Remaining(), lg[..n])
        invariant (more <==> n > 0) && (more <==> iter.Remaining() != [])
        invariant recs + RollbackList(lg[..n], txnum) == RollbackList(lg, txnum)
        decreases n
      {
        var bytes := iter.Next();
        NextDecoded(iter.Remaining(), bytes.value, lg, n);
        RollbackListNext(lg, n, txnum);
        var rec := Decode(bytes.value).value;
        n := n - 1;
        if !rec.Checkpoint? && rec.tx == txnum {
          if rec.Start? {
            return;
          }
          recs := recs + [rec];
        }
        EncodesSome(iter.Remaining(), lg, n);
        more := iter.HasNext();
      }
      RollbackListNone(lg, txnum);
    }

    /** Flushes the log and reads back the records of the transaction. */
    method OwnRecords() returns (recs: seq<LogRecord>)
      requires Active()
      modifies bm.Footprint()
      ensures Live() && bm.GoesOn()
      ensures recs == RollbackList(old(bm.ledger.s).log, txnum)
      ensures var s := old(bm.ledger.s); bm.ledger.s == RollbackBegun(s, txnum, RollbackList(s.log, txnum))
      ensures bm.pool == old(bm.pool) && bm.pins == old(bm.pins) && bm.numAvailable == old(bm.numAvailable)
    {
      hide DiskShows, PoolShows, PinsShow, Unpinned, ValidRun, Exec, LogOk, Inv, ListOf, ListShows, AllRecords,
           FileRecords;
      hide RollbackList, Encodes;
      ghost var s := bm.ledger.s;
      FlushShows(lm.State(), s.log, s.saved, s.base);
      var iter := lm.Iterator();
      bm.ledger.Do(StartRollback(txnum));
      recs := ScanOwn(iter, s.log);
    }

    lemma PoolFacts()
      requires bm.Valid()
      ensures PinsShow(bm.pool, bm.pins) && OneBufferEach(bm.pool) && bm.numAvailable == Unpinned(bm.pool)
    {}

    /** With the same pin counts as before, as many buffers are available as before. */
    lemma AvailableStays(pool: seq<Buffer>, pins: seq<Pin>)
      requires bm.Valid() && PinsShow(pool, pins) && OneBufferEach(pool) && |pool| == |bm.pool|
      requires forall b :: Count(bm.pins, b) == Count(pins, b)
      ensures bm.numAvailable == Unpinned(pool)
    {
      AvailableByPins(pool, pins, bm.pool, bm.pins);
    }

    /** One turn of the undo loop of `do_rollback`; `pool` and `pins` are those of its beginning. */
    method RollbackOne(rec: LogRecord, ghost todo: seq<LogRecord>, ghost pool: seq<Buffer>, ghost pins: seq<Pin>)
      returns (ok: bool)
      requires Live() && bm.ledger.s.mode.Running? && InPhase(bm.ledger.s, txnum)
      requires bm.ledger.s.txs[txnum] == RollingBack(todo) && todo != [] && todo[0] == rec
      requires PoolStays(pool, pins, bm.pool, bm.pins, txnum)
      modifies Footprint()
      ensures Live() && bm.GoesOn() && PoolStays(pool, pins, bm.pool, bm.pins, txnum)
      ensures old(bm.numAvailable) > 0 ==> ok && bm.numAvailable > 0
      ensures var s, s' := old(bm.ledger.s), bm.ledger.s;
              && s'.mode.Running? && s'.owner == s.owner && s'.next == s.next && s'.log == s.log && s'.hist == s.hist
              && if ok then s'.txs == s.txs[txnum := RollingBack(todo[1..])] && s'.cur == UndoOne(rec, s.cur)
                 else s'.txs == s.txs
    {
      hide LogShows, DiskShows, PoolShows, PinsShow, Unpinned, ValidRun, Exec, LogOk, Inv, ListOf, ListShows, Count;
      hide PoolStays, UndoOne;
      bm.ledger.Holds();
      UndoRollbackTarget(bm.ledger.init, bm.ledger.s, txnum);
      InvFacts(bm.ledger.init, bm.ledger.s);
      ghost var pool1, pins1 := bm.pool, bm.pins;
      PoolFacts();
      ok := UndoRecord(rec);
      PoolStaysStep(pool, pins, pool1, pins1, bm.pool, bm.pins, txnum);
      AvailableStays(pool1, pins1);
    }

    /** The undo loop of `do_rollback`. */
    method DoRollback() returns (ok: bool)
      requires Active()
      modifies Footprint()
      ensures Live() && bm.GoesOn()
      ensures OthersKept(old(bm.pool), old(bm.pins), bm.pool, bm.pins, txnum)
      ensures var s, s' := old(bm.ledger.s), bm.ledger.s;
              && InRollback(s, s', txnum) && s'.log == s.log && s'.hist == s.hist
              && (ok ==> s'.txs == s.txs[txnum := RollingBack([])] && s'.cur == s.cur + Own(s.log, txnum))
      ensures old(bm.numAvailable) > 0 ==> ok
    {
      hide LogShows, DiskShows, PoolShows, PinsShow, Unpinned, ValidRun, Exec, LogOk, Inv, ListOf, ListShows, Count;
      hide RollbackList, Own, PoolStays;
      ghost var s, pool, pins := bm.ledger.s, bm.pool, bm.pins;
      var recs := OwnRecords();
      PoolStaysRefl(pool, pins, txnum);
      var i := 0;
      while i < |recs|
        invariant i <= |recs| && Live() && bm.GoesOn()
        invariant bm.ledger.s.mode.Running? && bm.ledger.s.txs == s.txs[txnum := RollingBack(recs[i..])]
        invariant bm.ledger.s.owner == s.owner && bm.ledger.s.next == s.next
        invariant bm.ledger.s.log == s.log && bm.ledger.s.hist == s.hist
        invariant ApplyUndo(recs[i..], bm.ledger.s.cur) == ApplyUndo(recs, s.cur)
        invariant PoolStays(pool, pins, bm.pool, bm.pins, txnum)
        invariant old(bm.numAvailable) > 0 ==> bm.numAvailable > 0
      {
        assert recs[i..][1..] == recs[i + 1..];
        ok := RollbackOne(recs[i], recs[i..], pool, pins);
        if !ok {
          PoolStaysOthers(pool, pins, bm.pool, bm.pins, txnum);
          return;
        }
        i := i + 1;
      }
      PoolStaysOthers(pool, pins, bm.pool, bm.pins, txnum);
      RollbackScanMeaning(s.log, txnum, s.cur);
      ok := true;
    }

    /**
     Undoes the transaction, writes its blocks back, then the ROLLBACK record, then gives back its pins. Every
     location it logged is back at the value it found there, in memory and on disk. Fails, in the middle of
     the undo, only when every buffer is pinned.
     */
    method Rollback() returns (ok: bool)
      requires Active() && 16 <= lm.file.blocksize && Survives(txnum)
      modifies Footprint()
      ensures Live() && bm.GoesOn()
      ensures var s, s' := old(bm.ledger.s), bm.ledger.s;
              && s'.mode.Running?
              && (!ok ==> s'.log == s.log && s'.hist == s.hist && InRollback(s, s', txnum))
              && (ok ==>
                    && s'.log == s.log + [LogRecord.Rollback(txnum)] && s'.hist == s.hist + [RolledBack(txnum)]
                    && s'.saved == |s'.log| && Finished(s, s', txnum)
                    && s'.cur == s.cur + Own(s.log, txnum)
                    && (forall l | l in Own(s.log, txnum) :: l in s'.disk && s'.disk[l] == Own(s.log, txnum)[l])
                    && mybuffers.pins == [])
      ensures OthersKept(old(bm.pool), old(bm.pins), bm.pool, bm.pins, txnum)
      ensures old(bm.numAvailable) > 0 ==> ok
    {
      hide LogShows, DiskShows, PoolShows, PinsShow, Unpinned, ValidRun, Exec, LogOk, Inv, ListOf, ListShows;
      hide Own, OthersKept, Count;
      ghost var s, pool, pins := bm.ledger.s, bm.pool, bm.pins;
      bm.ledger.Holds();
      ActiveEntry(bm.ledger.init, s, txnum);
      ok := DoRollback();
      if !ok {
        return;
      }
      ghost var pool1, pins1 := bm.pool, bm.pins;
      FinishRollback();
      OthersKeptEnd(pool, pins, pool1, pins1, bm.pool, bm.pins, txnum);
    }

    /** Blocks of the data file that others modified last, or nobody, are as they were. */
    ghost predicate FilesKept(dirty: map<BlockId, Dirty>, blocks: map<BlockId, Cells>)
      reads bm.fm
    {
      bm.fm.blocks.Keys == blocks.Keys
      && forall b | b in blocks && !DirtyBy(dirty, b, txnum) :: bm.fm.blocks[b] == blocks[b]
    }

    /** Writes back what this transaction has modified; pins and frames stay. */
    method FlushMine()
      requires Live()
      modifies bm.Footprint()
      ensures Live() && bm.GoesOn() && OnlyFlushes(old(bm.ledger.s), bm.ledger.s) && NoDirty(bm.ledger.s.dirty, txnum)
      ensures FlushesOf(old(bm.ledger.s), bm.ledger.s, txnum) && FilesKept(old(bm.ledger.s).dirty, old(bm.fm.blocks))
      ensures bm.pins == old(bm.pins) && SameFrames(old(bm.pool), bm.pool)
    {
      hide LogShows, DiskShows, PoolShows, PinsShow, Unpinned, ValidRun, Exec, LogOk, Inv, ListOf, ListShows, Count;
      hide FlushesOf;
      bm.FlushAll(txnum);
      SameFramesList(mybuffers.buffers, mybuffers.pins, old(bm.pool), bm.pool, bm.pins, txnum);
    }

    /** Writes and flushes the record with which the transaction ends. */
    method Conclude(rec: seq<byte>, ghost r: LogRecord, ghost append: Step, ghost end: Step)
      requires bm.Valid() && lm == bm.lm && Recordable(r) && rec == Encode(r)
      requires bm.ledger.s.base <= |bm.ledger.s.log| && Enabled(bm.ledger.s, append)
      requires var s := bm.ledger.s; var s1 := Apply(s, append);
               && AppendsOnly(s, s1, r, Full(lm.logpage.bb[..], rec)) && s1.base <= |s1.log|
               && Enabled(s1, end) && FlushesLog(s1, Apply(s1, end))
      modifies bm.Footprint()
      ensures bm.Valid() && bm.GoesOn() && bm.pool == old(bm.pool) && bm.pins == old(bm.pins)
      ensures bm.numAvailable == old(bm.numAvailable) && bm.fm.blocks == old(bm.fm.blocks)
      ensures bm.ledger.s == Apply(Apply(old(bm.ledger.s), append), end)
    {
      hide LogShows, DiskShows, PoolShows, PinsShow, Unpinned, ValidRun, Exec, LogOk, Inv, Apply, Enabled, Encode;
      var lsn := AppendRecord(rec, r, append);
      FlushRecords(lsn, end);
    }

    /** Writes and flushes the ROLLBACK record, behind the flush of the blocks. */
    method LogRollback()
      requires Live() && 16 <= lm.file.blocksize && Survives(txnum) && NoDirty(bm.ledger.s.dirty, txnum)
      requires InPhase(bm.ledger.s, txnum) && bm.ledger.s.txs[txnum] == RollingBack([])
      modifies bm.Footprint()
      ensures Live() && bm.GoesOn() && bm.pool == old(bm.pool) && bm.pins == old(bm.pins)
      ensures var s, s' := old(bm.ledger.s), bm.ledger.s;
              && s'.log == s.log + [LogRecord.Rollback(txnum)] && s'.hist == s.hist + [RolledBack(txnum)]
              && s'.saved == |s'.log| && Finished(s, s', txnum) && s'.cur == s.cur && s'.disk == s.disk
              && s'.dirty == s.dirty
      ensures bm.fm.blocks == old(bm.fm.blocks)
    {
      hide LogShows, DiskShows, PoolShows, PinsShow, Unpinned, ValidRun, Exec, LogOk, Inv, ListOf, ListShows, Apply;
      hide Count;
      bm.ledger.Holds();
      InvFacts(bm.ledger.init, bm.ledger.s);
      var rec := StatusBytes(OP_ROLLBACK, txnum);
      ghost var spill := Full(lm.logpage.bb[..], rec);
      RollbackSteps(bm.ledger.s, txnum, spill);
      Conclude(rec, LogRecord.Rollback(txnum), AppendRollback(txnum, spill), EndRollback(txnum));
    }

    /** What follows the undo: blocks, ROLLBACK record, pins. */
    method FinishRollback()
      requires Live() && 16 <= lm.file.blocksize && Survives(txnum)
      requires InPhase(bm.ledger.s, txnum) && bm.ledger.s.txs[txnum] == RollingBack([])
      modifies Footprint()
      ensures Live() && bm.GoesOn() && mybuffers.pins == []
      ensures var s, s' := old(bm.ledger.s), bm.ledger.s;
              && s'.log == s.log + [LogRecord.Rollback(txnum)] && s'.hist == s.hist + [RolledBack(txnum)]
              && s'.saved == |s'.log| && Finished(s, s', txnum) && s'.cur == s.cur
              && forall l | l in EntryOf(Undo(s.log), txnum) :: l in s'.cur && l in s'.disk && s'.disk[l] == s'.cur[l]
      ensures FlushesOf(old(bm.ledger.s), bm.ledger.s, txnum) && FilesKept(old(bm.ledger.s).dirty, old(bm.fm.blocks))
      ensures OthersHeld(old(bm.ledger.s), bm.ledger.s, txnum)
      ensures |bm.pool| == |old(bm.pool)| && forall j | 0 <= j < |bm.pool| :: bm.pool[j].blk == old(bm.pool)[j].blk
      ensures forall t' | t' != txnum :: ListOf(bm.pins, t') == ListOf(old(bm.pins), t')
    {
      hide LogShows, DiskShows, PoolShows, PinsShow, Unpinned, ValidRun, Exec, LogOk, Inv, ListOf, ListShows, Apply;
      hide Own, Count, Undo, EntryOf, FlushesOf, OthersHeld;
      ghost var s := bm.ledger.s;
      bm.ledger.Holds();
      FlushMine();
      bm.ledger.Holds();
      EntryFlushed(bm.ledger.init, bm.ledger.s, txnum);
      ghost var m := bm.ledger.s;
      LogRollback();
      FlushesThen(s, m, bm.ledger.s, txnum);
      OthersNotFlushed(bm.ledger.init, s, bm.ledger.s, txnum);
      mybuffers.UnpinAll();
    }

    // -------------------------------------------------------------------------------------------
    // Recovery
    // -------------------------------------------------------------------------------------------

    /** The first loop of `do_recover`: reads back to the newest checkpoint, collecting finished transactions. */
    method ScanUnfinished(iter: LogIterator, ghost lg: seq<LogRecord>) returns (recs: seq<LogRecord>)
      requires iter.Valid() && Encodes(iter.Remaining(), lg)
      modifies iter, iter.page.bb
      ensures recs == UndoList(lg, [])
    {
      hide Decode, Encode, UndoList, Encodes, FileRecords, RecordsFrom, PackedFrom;
      var finished: seq<nat> := [];
      recs := [];
      ghost var n := |lg|;
      assert lg[..n] == lg;
      EncodesSome(iter.Remaining(), lg, n);
      var more := iter.HasNext();
      while more
        invariant iter.Valid() && 0 <= n <= |lg| && Encodes(iter.Remaining(), lg[..n])
        invariant (more <==> n > 0) && (more <==> iter.Remaining() != [])
        invariant recs + UndoList(lg[..n], finished) == UndoList(lg, [])
        decreases n
      {
        var bytes := iter.Next();
        NextDecoded(iter.Remaining(), bytes.value, lg, n);
        UndoListNext(lg, n, finished);
        var rec := Decode(bytes.value).value;
        n := n - 1;
        if rec.Checkpoint? {
          return;
        }
        if rec.Commit? || rec.Rollback? {
          finished := finished + [rec.tx];
        } else if rec.tx !in finished {
          recs := recs + [rec];
        }
        EncodesSome(iter.Remaining(), lg, n);
        more := iter.HasNext();
      }
      UndoListNone(lg, finished);
    }

    /** Flushes the log and reads back the records of unfinished transactions. */
    method UnfinishedRecords() returns (recs: seq<LogRecord>)
      requires Live() && bm.ledger.s.mode.Restarted?
      modifies bm.Footprint()
      ensures Live() && bm.GoesOn()
      ensures recs == UndoList(old(bm.ledger.s).log, [])
      ensures bm.ledger.s == FlushedLog(old(bm.ledger.s)).(mode := Recovering(UndoList(old(bm.ledger.s).log, [])))
      ensures bm.pool == old(bm.pool) && bm.pins == old(bm.pins) && bm.numAvailable == old(bm.numAvailable)
    {
      hide DiskShows, PoolShows, PinsShow, Unpinned, ValidRun, Exec, LogOk, Inv, ListOf, ListShows, AllRecords,
           FileRecords;
      hide UndoList, Encodes;
      ghost var s := bm.ledger.s;
      FlushShows(lm.State(), s.log, s.saved, s.base);
      var iter := lm.Iterator();
      bm.ledger.Do(StartRecovery);
      recs := ScanUnfinished(iter, s.log);
    }

    /** The undo loop of `do_recover`; it cannot fail when some buffer is free. */
    method DoRecover() returns (ok: bool)
      requires Live() && bm.ledger.s.mode.Restarted? && txnum == bm.ledger.s.next && mybuffers.pins == []
      modifies Footprint()
      ensures Live() && bm.GoesOn() && mybuffers.pins == []
      ensures var s, s' := old(bm.ledger.s), bm.ledger.s;
              && s'.mode.Recovering? && s'.log == s.log && s'.hist == s.hist && s'.next == s.next
              && (ok ==> s'.mode == Recovering([]) && s'.cur == RecoveredStore(s.cur, s.log))
      ensures old(bm.numAvailable) > 0 ==> ok
    {
      hide LogShows, DiskShows, PoolShows, PinsShow, Unpinned, ValidRun, Exec, LogOk, Inv, ListOf, ListShows, Count;
      hide UndoList, PoolStays;
      ghost var s := bm.ledger.s;
      var recs := UnfinishedRecords();
      var i := 0;
      while i < |recs|
        invariant i <= |recs| && Live() && bm.GoesOn() && mybuffers.pins == []
        invariant bm.ledger.s.mode == Recovering(recs[i..]) && bm.ledger.s.next == s.next
        invariant bm.ledger.s.log == s.log && bm.ledger.s.hist == s.hist
        invariant ApplyUndo(recs[i..], bm.ledger.s.cur) == ApplyUndo(recs, s.cur)
        invariant old(bm.numAvailable) > 0 ==> bm.numAvailable > 0
      {
        bm.ledger.Holds();
        UndoRecoveryTarget(bm.ledger.init, bm.ledger.s);
        ghost var pool1, pins1 := bm.pool, bm.pins;
        PoolFacts();
        assert recs[i..][1..] == recs[i + 1..];
        ok := UndoRecord(recs[i]);
        AvailableStays(pool1, pins1);
        if !ok {
          return;
        }
        i := i + 1;
      }
      ok := true;
    }

    /**
     Recovery, which every restart begins with. Memory and disk then hold the store that the committed
     transactions left, and the log is marked so that the next recovery need not look further back. Fails, in the
     middle of the undo, only when every buffer is pinned; a later recovery then has the same to do.
     */
    method Recover() returns (ok: bool)
      requires Live() && bm.ledger.s.mode.Restarted? && txnum == bm.ledger.s.next && 16 <= lm.file.blocksize
      requires mybuffers.pins == []
      modifies Footprint()
      ensures Live() && bm.GoesOn() && (ok ==> Active())
      ensures var s, s', d := old(bm.ledger.s), bm.ledger.s, bm.ledger.init;
              && s'.next == s.next
              && (!ok ==> s'.mode.Recovering? && s'.hist == s.hist && s'.log == s.log)
              && (ok ==> s'.owner == map[] && IsRecovered(s', d, s.hist, txnum)
                         && DiskShows(bm.fm.blocks, CommittedStore(d, s.hist)))
      ensures old(bm.numAvailable) > 0 ==> ok
    {
      hide LogShows, DiskShows, PoolShows, PinsShow, Unpinned, ValidRun, Exec, LogOk, Inv, ListOf, ListShows, Count;
      hide UndoList, CommittedStore;
      ghost var s, d := bm.ledger.s, bm.ledger.init;
      bm.FlushAll(txnum);
      SameFramesList(mybuffers.buffers, mybuffers.pins, old(bm.pool), bm.pool, bm.pins, txnum);
      ok := DoRecover();
      if ok {
        FinishRecovery(s.hist);
      }
    }

    /** Writes and flushes the CHECKPOINT record, behind the flush of the blocks. */
    method LogCheckpoint(ghost h: seq<Event>)
      requires Live() && bm.ledger.s.mode == Recovering([]) && txnum == bm.ledger.s.next && 16 <= lm.file.blocksize
      requires bm.ledger.s.hist == h && NoDirty(bm.ledger.s.dirty, txnum)
      modifies bm.Footprint()
      ensures Active() && bm.GoesOn()
      ensures var s', d := bm.ledger.s, bm.ledger.init;
              && s'.next == old(bm.ledger.s).next && s'.owner == map[] && IsRecovered(s', d, h, txnum)
    {
      hide LogShows, DiskShows, PoolShows, PinsShow, Unpinned, ValidRun, Exec, LogOk, Inv, ListOf, ListShows, Count;
      hide UndoList, CommittedStore, Apply;
      bm.ledger.Holds();
      InvFacts(bm.ledger.init, bm.ledger.s);
      var rec := CheckpointBytes();
      ghost var spill := Full(lm.logpage.bb[..], rec);
      CheckpointSteps(bm.ledger.s, spill);
      CheckpointResult(bm.ledger.init, bm.ledger.s, spill);
      Conclude(rec, Checkpoint, AppendCheckpoint(spill), EndRecovery);
    }

    /** What follows the undo: blocks and CHECKPOINT record. */
    method FinishRecovery(ghost h: seq<Event>)
      requires Live() && bm.ledger.s.mode == Recovering([]) && txnum == bm.ledger.s.next && 16 <= lm.file.blocksize
      requires bm.ledger.s.hist == h
      modifies Footprint()
      ensures Active() && bm.GoesOn()
      ensures var s', d := bm.ledger.s, bm.ledger.init;
              && s'.next == old(bm.ledger.s).next && s'.owner == map[] && IsRecovered(s', d, h, txnum)
              && DiskShows(bm.fm.blocks, CommittedStore(d, h))
    {
      hide LogShows, DiskShows, PoolShows, PinsShow, Unpinned, ValidRun, Exec, LogOk, Inv, ListOf, ListShows, Count;
      hide UndoList, CommittedStore, Apply;
      FlushMine();
      LogCheckpoint(h);
    }
  }

  /** The value at `l` and the mark on its block are set, and nothing else in memory or on disk. */
  ghost predicate Sets(s: State, s': State, t: nat, l: Loc, v: Value, lsn: Option<nat>) {
    && s'.cur == s.cur[l := v]
    && s'.dirty == s.dirty[l.blk := Dirty(t, lsn)]
    && s'.disk == s.disk && s'.base == s.base
  }

  /** The step that setting `l` to `v` is: a logged write, an undo, or a write of the same value. */
  ghost predicate IsSettingStep(s: State, step: Step, t: nat, l: Loc, v: Value, okToLog: bool,
                                undo: Option<LogRecord>) {
    && s.base <= |s.log| && Enabled(s, step)
    && if okToLog then step.Write? && step.t == t && step.l == l && step.v == v
       else if undo.Some? then
         && NextUndo(s, t, undo.value) && undo.value.IsSet()
         && undo.value.Where() == l && undo.value.OldValue() == v
         && (step.UndoRecovery? || step.UndoRollback?) && step == UndoStepOf(s, t, step.stale)
       else step.Touch? && step == Touch(t, l.blk, step.stale) && l in s.cur && s.cur[l] == v
  }

  lemma SettingStep(s: State, step: Step, t: nat, l: Loc, v: Value, okToLog: bool, undo: Option<LogRecord>,
                    lsn: Option<nat>)
    requires IsSettingStep(s, step, t, l, v, okToLog, undo)
    requires if step.Write? then lsn == Some(|s.log| + 1 - s.base)
             else lsn == if l.blk in s.dirty then s.dirty[l.blk].lsn else step.stale
    ensures Sets(s, Apply(s, step), t, l, v, lsn)
    ensures step.Write? ==> l in s.cur && Apply(s, step).log == s.log + [UpdateRecord(t, l, s.cur[l])]
                            && Apply(s, step).saved == if step.spill then |s.log| else s.saved
    ensures !step.Write? ==> Apply(s, step).log == s.log && Apply(s, step).saved == s.saved
  {}

  lemma SettingEnabled(s: State, step: Step, t: nat, l: Loc, v: Value, okToLog: bool, undo: Option<LogRecord>)
    requires IsSettingStep(s, step, t, l, v, okToLog, undo)
    ensures s.base <= |s.log| && Enabled(s, step)
  {}

  lemma ShownValue(pool: seq<Buffer>, i: nat, blocks: map<BlockId, Cells>, s: State, blk: BlockId, off: nat)
    requires PoolShows(pool, blocks, s.cur, s.dirty) && DiskShows(blocks, s.disk) && s.disk.Keys == s.cur.Keys
    requires i < |pool| && pool[i].blk == Some(blk) && Loc(blk, off) in s.cur
    ensures off in pool[i].contents && pool[i].contents[off] == s.cur[Loc(blk, off)]
    ensures blk in s.dirty ==> s.dirty[blk].lsn == pool[i].lsn
  {
    assert BufferShows(pool[i], blocks, s.cur, s.dirty);
    assert Loc(blk, off) in s.disk;
  }

  lemma SavedBound(ls: LogState)
    requires LogOk(ls)
    ensures ls.saved <= ls.latest
  {}

  /** The log has gone to disk, and transaction `t` has `todo` to undo. */
  function RollbackBegun(s: State, t: nat, todo: seq<LogRecord>): State {
    FlushedLog(s).(txs := s.txs[t := RollingBack(todo)])
  }

  /** What a client sees of `SetInt` and `SetString`. */
  ghost predicate Written(s: State, s': State, t: nat, l: Loc, v: Value, ok: bool, logged: bool) {
    if !ok then s' == s
    else
      && l in s.cur && s'.cur == s.cur[l := v] && s'.disk == s.disk && s'.txs == s.txs && s'.mode == s.mode
      && l.blk in s'.owner && s'.owner == s.owner[l.blk := t] && s'.next == s.next
      && s'.log == (if logged then s.log + [UpdateRecord(t, l, s.cur[l])] else s.log)
      && s'.hist == (if logged then s.hist + [Wrote(t, l, v)] else s.hist)
      && (s'.saved == s.saved || s'.saved == |s.log|)
  }

  lemma PendingHeld(d: Store, s: State, t: nat)
    requires Inv(d, s)
    requires forall x | CoveredBy(Undo(s.log), t, x) :: HoldsPending(s.disk, RefOf(d, s.hist), t, x)
    ensures forall l | l in EntryOf(RefOf(d, s.hist).pending, t) :: HoldsPending(s.disk, RefOf(d, s.hist), t, l)
  {
    hide Faithful, WriteAhead, DirtyWhereDifferent, ModeOk, Undo, RefOf;
    forall l | l in EntryOf(RefOf(d, s.hist).pending, t)
      ensures HoldsPending(s.disk, RefOf(d, s.hist), t, l)
    {
      assert CoveredBy(Undo(s.log), t, l);
    }
  }

  /** The next record has been undone; apart from that blocks and log records may have gone to disk. */
  ghost predicate UndoneNext(s: State, s': State, t: nat, r: LogRecord) {
    && NextUndo(s, t, r)
    && s'.cur == UndoOne(r, s.cur)
    && s'.log == s.log && s'.hist == s.hist && s'.base == s.base && s'.next == s.next && s'.owner == s.owner
    && if s.mode.Recovering?
       then s'.mode == Recovering(s.mode.todo[1..]) && s'.txs == s.txs
       else s'.mode == s.mode && InPhase(s, t) && s.txs[t].RollingBack?
            && s'.txs == s.txs[t := RollingBack(s.txs[t].todo[1..])]
  }

  lemma UndoneThroughFlush(s: State, m: State, step: Step, t: nat, r: LogRecord)
    requires OnlyFlushes(s, m) && r.IsSet()
    requires IsSettingStep(m, step, t, r.Where(), r.OldValue(), false, Some(r))
    ensures UndoneNext(s, Apply(m, step), t, r)
  {}

  /** Pinning, setting and unpinning one buffer. */
  lemma UndoneFrames(pool: seq<Buffer>, pool1: seq<Buffer>, pool2: seq<Buffer>, pins: seq<Pin>, pins2: seq<Pin>, t: nat)
    requires PinnedStay(pool, pool1) && |pool2| == |pool1|
    requires forall j | 0 <= j < |pool1| :: pool2[j].blk == pool1[j].blk
    requires forall t' | t' != t :: ListOf(pins2, t') == ListOf(pins, t')
    ensures OthersKept(pool, pins, pool2, pins2, t)
  {}

  /** Without dirty buffers of `t`, the disk holds what `t` left in memory. */
  lemma EntryFlushed(d: Store, s: State, t: nat)
    requires Inv(d, s) && InPhase(s, t) && NoDirty(s.dirty, t)
    ensures forall l | l in EntryOf(Undo(s.log), t) :: l in s.cur && l in s.disk && s.disk[l] == s.cur[l]
  {
    hide Inv, Undo;
    forall l | l in EntryOf(Undo(s.log), t)
      ensures l in s.cur && l in s.disk && s.disk[l] == s.cur[l]
    {
      assert CoveredBy(Undo(s.log), t, l);
      FlushedAll(d, s, t, l);
    }
  }

  lemma ActiveEntry(d: Store, s: State, t: nat)
    requires Inv(d, s) && InPhase(s, t) && s.txs[t].Active?
    ensures EntryOf(Undo(s.log), t) == Own(s.log, t)
  {
    assert TxOk(d, s.cur, s.log, s.hist, s.txs[t], t);
  }

  lemma UndoRecoveryTarget(d: Store, s: State)
    requires Inv(d, s) && s.mode.Recovering? && s.mode.todo != []
    ensures var r := s.mode.todo[0]; r.IsSet() ==> r.Where() in s.cur
  {
    UndoTarget(d, s, s.mode.todo[0]);
  }

  /** Behind the CHECKPOINT record, memory and disk hold the committed store. */
  lemma CheckpointedState(d: Store, h: seq<Event>, s: State)
    requires Inv(d, s) && s.mode.Checkpointing? && s.hist == h + [Recovered]
    ensures s.cur == s.disk == CommittedStore(d, h) && s.owner == map[]
  {
    hide GoodHistory, WriteAhead, DirtyWhereDifferent, Own, UndoList, RollbackList, ApplyUndo, Exclusive;
    assert (h + [Recovered])[..|h|] == h;
    GoodKeys(d, s.log, s.hist);
    assert forall l :: !Covered(Undo(s.log), l);
  }

  lemma CheckpointResult(d: Store, s: State, spill: bool)
    requires Inv(d, s) && Enabled(s, AppendCheckpoint(spill)) && s.base <= |s.log|
    ensures var s' := Apply(Apply(s, AppendCheckpoint(spill)), EndRecovery);
            IsRecovered(s', d, s.hist, s.next) && s'.owner == map[]
  {
    hide Inv, CommittedStore;
    CheckpointSteps(s, spill);
    StepKeeps(d, s, AppendCheckpoint(spill));
    CheckpointedState(d, s.hist, Apply(s, AppendCheckpoint(spill)));
  }

  lemma OthersKeptEnd(pool: seq<Buffer>, pins: seq<Pin>, pool1: seq<Buffer>, pins1: seq<Pin>,
                      pool2: seq<Buffer>, pins2: seq<Pin>, t: nat)
    requires OthersKept(pool, pins, pool1, pins1, t)
    requires |pool2| == |pool1| && forall j | 0 <= j < |pool1| :: pool2[j].blk == pool1[j].blk
    requires forall t' | t' != t :: ListOf(pins2, t') == ListOf(pins1, t')
    ensures OthersKept(pool, pins, pool2, pins2, t)
  {}

  lemma BlockExists(blocks: map<BlockId, Cells>, disk: Store, l: Loc)
    requires DiskShows(blocks, disk) && l in disk
    ensures l.blk in blocks
  {}

  /** A pin and its return leave all counts and the other lists as they were. */
  lemma PinUnpin(pins: seq<Pin>, list: seq<BlockId>, t: nat, b: BlockId)
    ensures var pins' := Erase(pins + [Pin(t, b)], Pin(t, b));
            && (forall x :: Count(pins', x) == Count(pins, x))
            && (forall t' | t' != t :: ListOf(pins', t') == ListOf(pins, t'))
            && |pins'| == |pins|
    ensures list == [] ==> Erase(list + [b], b) == []
  {
    var p := Pin(t, b);
    forall x
      ensures Count(Erase(pins + [p], p), x) == Count(pins, x)
    {
      AddPin(pins, p, t, x);
      EraseCount(pins + [p], p, x);
    }
    forall t' | t' != t
      ensures ListOf(Erase(pins + [p], p), t') == ListOf(pins, t')
    {
      AddPin(pins, p, t', b);
      EraseList(pins + [p], p, t');
    }
    EraseLength(pins + [p], p);
    if list == [] {
      assert [] + [b] == [b];
    }
  }

  lemma {:induction false} EraseLength<T>(s: seq<T>, x: T)
    requires x in s
    ensures |Erase(s, x)| == |s| - 1
  {
    if s[0] != x {
      EraseLength(s[1..], x);
    }
  }

  // ---------------------------------------------------------------------------------------------
  // Scanning the log backwards
  // ---------------------------------------------------------------------------------------------

  lemma EncodesSome(rem: seq<seq<byte>>, lg: seq<LogRecord>, n: nat)
    requires n <= |lg| && Encodes(rem, lg[..n])
    ensures rem != [] <==> n > 0
  {}

  /** The newest remaining bytes are those of the newest remaining record. */
  lemma NextDecoded(rem: seq<seq<byte>>, bytes: seq<byte>, lg: seq<LogRecord>, n: nat)
    requires 0 < n <= |lg| && Encodes(rem + [bytes], lg[..n])
    ensures Decode(bytes) == Some(lg[n - 1]) && Encodes(rem, lg[..n - 1])
  {
    hide Decode, Encode;
    assert (rem + [bytes])[n - 1] == bytes && lg[..n][n - 1] == lg[n - 1];
    RoundTrip(lg[n - 1]);
    forall k | 0 <= k < n - 1
      ensures Encodable(lg[k]) && Representable(lg[k]) && rem[k] == Encode(lg[k])
    {
      assert lg[..n][k] == lg[k] && (rem + [bytes])[k] == rem[k];
    }
  }

  lemma RollbackListNext(lg: seq<LogRecord>, n: nat, t: nat)
    requires 0 < n <= |lg|
    ensures var r, older := lg[n - 1], RollbackList(lg[..n - 1], t);
            RollbackList(lg[..n], t) ==
              if r == Start(t) then [] else if !r.Checkpoint? && r.tx == t then [r] + older else older
  {
    assert lg[..n][..n - 1] == lg[..n - 1];
  }

  lemma UndoListNext(lg: seq<LogRecord>, n: nat, fin: seq<nat>)
    requires 0 < n <= |lg|
    ensures var r, older := lg[n - 1], lg[..n - 1];
            UndoList(lg[..n], fin) ==
              if r.Checkpoint? then []
              else if r.Commit? || r.Rollback? then UndoList(older, fin + [r.tx])
              else if r.tx in fin then UndoList(older, fin)
              else [r] + UndoList(older, fin)
  {
    assert lg[..n][..n - 1] == lg[..n - 1];
  }

  lemma UndoListNone(lg: seq<LogRecord>, fin: seq<nat>)
    ensures UndoList(lg[..0], fin) == []
  {}

  lemma RollbackListNone(lg: seq<LogRecord>, t: nat)
    ensures RollbackList(lg[..0], t) == []
  {}

  // ---------------------------------------------------------------------------------------------
  // The pool during a series of undos
  // ---------------------------------------------------------------------------------------------

  /** Pinned buffers keep block and count, and the other transactions keep their lists. */
  ghost predicate PoolStays(pool: seq<Buffer>, pins: seq<Pin>, pool': seq<Buffer>, pins': seq<Pin>, t: nat) {
    && OthersKept(pool, pins, pool', pins', t)
    && (forall b :: Count(pins', b) == Count(pins, b))
    && PinsShow(pool, pins)
  }

  lemma PoolStaysRefl(pool: seq<Buffer>, pins: seq<Pin>, t: nat)
    requires PinsShow(pool, pins)
    ensures PoolStays(pool, pins, pool, pins, t)
  {}

  lemma PoolStaysStep(pool: seq<Buffer>, pins: seq<Pin>, pool1: seq<Buffer>, pins1: seq<Pin>,
                      pool2: seq<Buffer>, pins2: seq<Pin>, t: nat)
    requires PoolStays(pool, pins, pool1, pins1, t) && PinsShow(pool1, pins1)
    requires OthersKept(pool1, pins1, pool2, pins2, t) && forall b :: Count(pins2, b) == Count(pins1, b)
    ensures PoolStays(pool, pins, pool2, pins2, t)
  {
    forall j | 0 <= j < |pool| && pool[j].pins > 0
      ensures pool2[j].blk == pool[j].blk
    {
      assert PinsOf(pool[j], pins) && PinsOf(pool1[j], pins1);
    }
  }

  lemma PoolStaysOthers(pool: seq<Buffer>, pins: seq<Pin>, pool': seq<Buffer>, pins': seq<Pin>, t: nat)
    requires PoolStays(pool, pins, pool', pins', t)
    ensures OthersKept(pool, pins, pool', pins', t)
  {}
}

/**
 A crash of the process, and the start of the next one on the files that it leaves.
 */
module Server {
  import opened Types
  import opened LogMeaning
  import opened History
  import opened Engine
  import opened CrashSafety
  import opened Logs
  import opened LogCodec
  import opened Buffers
  import opened Transactions

  /** Data and log files as a crash leaves them. */
  ghost predicate OnDisk(fm: DataFile, file: LogFile, ledger: Ledger)
    reads fm, file, ledger
  {
    && ledger.Valid() && ledger.s.mode.Down? && ledger.s.next == 0
    && FileOk(file.blocks, file.blocksize)
    && Encodes(FileRecords(file.blocks), ledger.s.log)
    && ledger.s.dirty == map[] && ledger.s.saved == ledger.s.base == |ledger.s.log|
    && DiskShows(fm.blocks, ledger.s.disk)
  }

  lemma DurableEncodes(ls: LogState, lg: seq<LogRecord>, saved: nat, base: nat)
    requires LogShows(ls, lg, saved, base)
    ensures saved <= |lg| && Encodes(FileRecords(ls.blocks), lg[..saved])
  {
    SavedPrefix(ls);
  }

  /** Whenever the process stops, the files are as a crash leaves them: nothing but memory is lost. */
  ghost method CrashProcess(bm: BufferMgr)
    requires bm.Valid()
    modifies bm.ledger
    ensures OnDisk(bm.fm, bm.lm.file, bm.ledger)
    ensures bm.ledger.init == old(bm.ledger.init)
    ensures old(Sane(bm.ledger.s)) && bm.ledger.s.hist == DurableHistory(old(bm.ledger.s))
  {
    hide DiskShows, PoolShows, PinsShow, ValidRun, Exec, Encodes, AllRecords;
    DurableEncodes(bm.lm.State(), bm.ledger.s.log, bm.ledger.s.saved, bm.ledger.s.base);
    bm.ledger.Do(Crash);
  }

  /** The managers of a new process. */
  method OpenManagers(fm: DataFile, file: LogFile, numbuffs: nat, ghost ledger: Ledger) returns (bm: BufferMgr)
    requires OnDisk(fm, file, ledger) && 16 <= file.blocksize < 0x8000_0000
    modifies file
    ensures bm.Valid() && bm.fm == fm && bm.lm.file == file && bm.ledger == ledger
    ensures fresh(bm) && fresh(bm.lm) && fresh(bm.lm.logpage.bb)
    ensures bm.pins == [] && bm.numAvailable == numbuffs
  {
    assert |FileRecords(file.blocks)| == |ledger.s.log|;
    hide DiskShows, PoolShows, PinsShow, ValidRun, Exec, Encodes, LogOk, FileRecords, AllRecords;
    RestartOk(file.blocks, file.blocksize);
    var lm := new LogMgr(file);
    bm := new BufferMgr(fm, lm, numbuffs, ledger);
  }

  /** The store that data blocks hold. */
  ghost function StoreOf(blocks: map<BlockId, Cells>): Store {
    map b, o | b in blocks && o in blocks[b] :: Loc(b, o) := blocks[b][o]
  }

  lemma StoreShown(blocks: map<BlockId, Cells>)
    ensures DiskShows(blocks, StoreOf(blocks))
  {}

  lemma NewLogShows(blocksize: nat)
    requires 8 <= blocksize < 0x8000_0000
    ensures LogShows(FreshState(blocksize), [], 0, 0)
  {
    FreshOk(blocksize);
  }

  /** The managers and pin list of a new process. */
  twostate predicate NewObjects(new tx: Transaction) {
    fresh(tx.bm) && fresh(tx.bm.lm) && fresh(tx.bm.lm.logpage.bb) && fresh(tx.mybuffers)
  }

  /** The managers of a new database, and a run that begins with the store of the data blocks. */
  method NewManagers(fm: DataFile, file: LogFile, numbuffs: nat) returns (bm: BufferMgr)
    requires file.blocks == [] && 16 <= file.blocksize < 0x8000_0000
    modifies file
    ensures bm.Valid() && bm.fm == fm && bm.lm.file == file && bm.pins == [] && bm.numAvailable == numbuffs
    ensures fresh(bm) && fresh(bm.lm) && fresh(bm.lm.logpage.bb) && fresh(bm.ledger)
    ensures bm.ledger.init == StoreOf(fm.blocks) && bm.ledger.s == Init(StoreOf(fm.blocks))
  {
    hide DiskShows, PoolShows, PinsShow, LogShows, LogOk, Unpinned, ValidRun, Exec;
    StoreShown(fm.blocks);
    NewLogShows(file.blocksize);
    ghost var ledger := new Ledger(StoreOf(fm.blocks));
    var lm := new LogMgr(file);
    bm := new BufferMgr(fm, lm, numbuffs, ledger);
  }

  /** `SimpleDB` on a new database: an empty log, and a first transaction, which has nothing to recover. */
  method Create(fm: DataFile, file: LogFile, numbuffs: nat) returns (nums: TxNumbers, tx: Transaction)
    requires file.blocks == [] && 16 <= file.blocksize < 0x8000_0000
    modifies fm, file
    ensures fm.blocks == old(fm.blocks)
    ensures tx.Active() && NewObjects(tx) && fresh(tx.bm.ledger) && fresh(nums)
    ensures tx.bm.fm == fm && tx.bm.lm.file == file
    ensures tx.mybuffers.pins == [] && tx.bm.pins == [] && tx.bm.numAvailable == numbuffs
    ensures var s, d := tx.bm.ledger.s, StoreOf(fm.blocks);
            && tx.bm.ledger.init == d == s.cur == s.disk && DiskShows(fm.blocks, d)
            && s.hist == [Began(1)] && s.txs == map[1 := TxPhase.Active] && s.owner == map[]
            && tx.txnum == nums.last == s.next == 1
  {
    hide DiskShows, PoolShows, PinsShow, LogShows, LogOk, ListShows, Unpinned, ValidRun, Exec, StoreOf;
    var bm := NewManagers(fm, file, numbuffs);
    nums := new TxNumbers();
    tx := new Transaction(nums, bm.lm, bm);
    assert [] + [Began(1)] == [Began(1)];
  }

  /**
   `SimpleDB` on an existing database: new managers on the files, a first transaction, recovery. The data
   file then shows exactly what the transactions with a durable COMMIT have left.
   */
  method Open(fm: DataFile, file: LogFile, numbuffs: nat, ghost ledger: Ledger)
    returns (nums: TxNumbers, tx: Transaction)
    requires OnDisk(fm, file, ledger) && 0 < numbuffs && 16 <= file.blocksize < 0x8000_0000
    modifies fm, file, ledger
    ensures tx.Active() && tx.bm.fm == fm && tx.bm.lm.file == file && tx.bm.ledger == ledger
    ensures NewObjects(tx) && fresh(nums)
    ensures ledger.init == old(ledger.init)
    ensures DiskShows(fm.blocks, CommittedStore(ledger.init, old(ledger.s).hist))
    ensures var s := ledger.s;
            && s.cur == s.disk == CommittedStore(ledger.init, old(ledger.s).hist)
            && s.txs == map[1 := TxPhase.Active] && s.owner == map[] && tx.txnum == nums.last == s.next == 1
  {
    hide DiskShows, PoolShows, PinsShow, ValidRun, Exec, Encodes, LogShows, LogOk, ListShows, FileOk, CommittedStore,
         Unpinned;
    var bm := OpenManagers(fm, file, numbuffs, ledger);
    nums := new TxNumbers();
    tx := new Transaction(nums, bm.lm, bm);
    CommittedAfterBegin(ledger.init, old(ledger.s).hist, Began(tx.txnum));
    var ok := tx.Recover();
  }

  lemma CommittedAfterBegin(d: Store, h: seq<Event>, e: Event)
    requires e.Began?
    ensures CommittedStore(d, h + [e]) == CommittedStore(d, h)
  {
    assert (h + [e])[..|h|] == h;
  }

  /** A crash at any moment, and the next start: the committed store is back. */
  method CrashAndOpen(bm: BufferMgr, numbuffs: nat) returns (nums: TxNumbers, tx: Transaction)
    requires bm.Valid() && 0 < numbuffs && 16 <= bm.lm.file.blocksize < 0x8000_0000
    modifies bm.Footprint()
    ensures tx.Active() && tx.bm.fm == bm.fm && tx.bm.ledger == bm.ledger && tx.txnum == nums.last == bm.ledger.s.next
    ensures NewObjects(tx) && fresh(nums)
    ensures old(Sane(bm.ledger.s))
    ensures DiskShows(bm.fm.blocks, CommittedStore(old(bm.ledger.init), DurableHistory(old(bm.ledger.s))))
  {
    CrashProcess(bm);
    nums, tx := Open(bm.fm, bm.lm.file, numbuffs, bm.ledger);
  }

  /** The last write of each location by transaction `t`. */
  ghost function WrittenBy(tx: Transaction): Store
    reads tx.bm.ledger
  {
    EntryOf(RefOf(tx.bm.ledger.init, tx.bm.ledger.s.hist).pending, tx.txnum)
  }

  lemma CommittedShows(d: Store, h: seq<Event>, t: nat)
    ensures var c := CommittedStore(d, h + [Committed(t)]); var w := EntryOf(RefOf(d, h).pending, t);
            forall l | l in w :: l in c && c[l] == w[l]
  {
    assert (h + [Committed(t)])[..|h|] == h;
  }

  /** A commit, a crash right behind it, and the next start: the data file has everything that the transaction wrote. */
  method CommitAndCrash(tx: Transaction, numbuffs: nat) returns (nums: TxNumbers, next: Transaction)
    requires tx.Active() && Survives(tx.txnum) && 0 < numbuffs && 16 <= tx.lm.file.blocksize < 0x8000_0000
    modifies tx.Footprint()
    ensures next.Active() && next.bm.fm == tx.bm.fm
    ensures var d, h := old(tx.bm.ledger.init), old(tx.bm.ledger.s).hist;
            DiskShows(tx.bm.fm.blocks, CommittedStore(d, h + [Committed(tx.txnum)]))
    ensures forall l | l in old(WrittenBy(tx)) ::
              && l.blk in tx.bm.fm.blocks && l.off in tx.bm.fm.blocks[l.blk]
              && tx.bm.fm.blocks[l.blk][l.off] == old(WrittenBy(tx))[l]
  {
    hide PoolShows, PinsShow, ValidRun, Exec, Encodes, LogShows, LogOk, ListShows, CommittedStore, Unpinned, RefOf;
    ghost var d, h := tx.bm.ledger.init, tx.bm.ledger.s.hist;
    tx.Commit();
    assert DurableHistory(tx.bm.ledger.s) == h + [Committed(tx.txnum)];
    nums, next := CrashAndOpen(tx.bm, numbuffs);
    CommittedShows(d, h, tx.txnum);
  }
}

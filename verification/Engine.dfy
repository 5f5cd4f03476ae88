/**
 The engine as a step machine: what survives a crash (`disk` and the first `saved` log records) and
 what does not (current values, dirty blocks, the rest of the log, transactions).

 A block that is not in the buffer pool has its disk value as its current value, so moving a clean
 block in or out of the pool is not a step. Every step is one write to memory, to the log page or to
 the disk, and a crash may come between any two.
 */
module Engine {
  import opened Types
  import opened LogMeaning
  import opened History

  /** A modified buffer: who modified it last and the log sequence number it must not overtake. */
  datatype Dirty = Dirty(tx: nat, lsn: Option<nat>)

  datatype TxPhase =
    | Active
    | Committing(lsn: nat)                  // COMMIT appended, with this sequence number
    | RollingBack(todo: seq<LogRecord>)     // records still to undo
    | Aborting(lsn: nat)                    // ROLLBACK appended

  datatype Mode =
    | Down
    | Restarted                             // the first transaction has written its START
    | Recovering(todo: seq<LogRecord>)
    | Checkpointing                         // CHECKPOINT appended
    | Running

  datatype State = State(
    disk: Store,
    cur: Store,                             // what a reader of the buffer pool sees
    dirty: map<BlockId, Dirty>,
    log: seq<LogRecord>,
    hist: seq<Event>,                       // one event per log record
    saved: nat,                             // log[..saved] is on disk
    base: nat,                              // length of the log when this process started
    next: nat,                              // last transaction number given out
    txs: map<nat, TxPhase>,
    owner: map<BlockId, nat>,               // the unfinished transaction that writes a block
    mode: Mode)

  datatype Step =
    | Begin(spill: bool)
    | Write(t: nat, l: Loc, v: Value, spill: bool)
    | Touch(t: nat, b: BlockId, stale: Option<nat>)
    | FlushBlock(b: BlockId)
    | FlushLog
    | AppendCommit(t: nat, spill: bool)
    | EndCommit(t: nat)
    | StartRollback(t: nat)
    | UndoRollback(t: nat, stale: Option<nat>)
    | AppendRollback(t: nat, spill: bool)
    | EndRollback(t: nat)
    | Crash
    | Restart(spill: bool)
    | StartRecovery
    | UndoRecovery(stale: Option<nat>)
    | AppendCheckpoint(spill: bool)
    | EndRecovery

  function Init(d: Store): State {
    State(d, d, map[], [], [], 0, 0, 0, map[], map[], Running)
  }

  /** Appending a record; `spill` says that the log page was full and went to disk first. */
  function Append(s: State, r: LogRecord, e: Event, spill: bool): State {
    s.(log := s.log + [r], hist := s.hist + [e], saved := if spill then |s.log| else s.saved)
  }

  /** The log sequence number of the newest record. */
  function Lsn(s: State): nat
    requires s.base <= |s.log|
  {
    |s.log| - s.base
  }

  function FlushedLog(s: State): State {
    s.(saved := |s.log|)
  }

  /** `LogMgr::flush(lsn)`: nothing happens when a later record has been saved. */
  function FlushedTo(s: State, lsn: Option<nat>): State {
    if lsn.Some? && s.base + lsn.value >= s.saved then FlushedLog(s) else s
  }

  function WrittenBack(disk: Store, cur: Store, b: BlockId): (d: Store)
    requires disk.Keys == cur.Keys
    ensures d.Keys == disk.Keys
  {
    map l | l in disk :: if l.blk == b then cur[l] else disk[l]
  }

  /** An unlogged write leaves the buffer's log sequence number as it was. */
  function Marked(s: State, b: BlockId, t: nat, stale: Option<nat>): map<BlockId, Dirty> {
    s.dirty[b := Dirty(t, if b in s.dirty then s.dirty[b].lsn else stale)]
  }

  /** Undo of one record by transaction `t`; only update records change anything. */
  function Undone(s: State, r: LogRecord, t: nat, stale: Option<nat>): State {
    if r.IsSet()
    then s.(cur := UndoOne(r, s.cur), dirty := Marked(s, r.blk, t, stale))
    else s
  }

  /** The blocks that transaction `t` does not own. */
  function Released(owner: map<BlockId, nat>, t: nat): map<BlockId, nat> {
    map b | b in owner && owner[b] != t :: owner[b]
  }

  /** The log is flushed as far as the record that ends `t`, and `t` is gone. */
  function Ended(s: State, t: nat, lsn: nat): State {
    FlushedTo(s, Some(lsn)).(txs := s.txs - {t}, owner := Released(s.owner, t))
  }

  predicate NoDirty(dirty: map<BlockId, Dirty>, t: nat) {
    forall b | b in dirty :: dirty[b].tx != t
  }

  predicate InPhase(s: State, t: nat) {
    s.mode.Running? && t in s.txs
  }

  /** No two unfinished transactions write the same block. */
  predicate MayWrite(s: State, t: nat, b: BlockId) {
    InPhase(s, t) && s.txs[t].Active? && (b in s.owner ==> s.owner[b] == t)
  }

  predicate Enabled(s: State, step: Step) {
    match step
    case Begin(_) => s.mode.Running?
    case Write(t, l, v, _) => MayWrite(s, t, l.blk) && l in s.cur && SameKind(s.cur[l], v)
    case Touch(t, b, _) => MayWrite(s, t, b)
    case FlushBlock(b) => b in s.dirty && s.disk.Keys == s.cur.Keys
    case FlushLog => !s.mode.Down?
    case AppendCommit(t, _) => InPhase(s, t) && s.txs[t].Active? && NoDirty(s.dirty, t)
    case EndCommit(t) => InPhase(s, t) && s.txs[t].Committing?
    case StartRollback(t) => InPhase(s, t) && s.txs[t].Active?
    case UndoRollback(t, _) => InPhase(s, t) && s.txs[t].RollingBack? && s.txs[t].todo != []
    case AppendRollback(t, _) => InPhase(s, t) && s.txs[t] == RollingBack([]) && NoDirty(s.dirty, t)
    case EndRollback(t) => InPhase(s, t) && s.txs[t].Aborting?
    case Crash => s.saved <= |s.log| && s.saved <= |s.hist|
    case Restart(_) => s.mode.Down?
    case StartRecovery => s.mode.Restarted?
    case UndoRecovery(_) => s.mode.Recovering? && s.mode.todo != []
    case AppendCheckpoint(_) => s.mode == Recovering([]) && NoDirty(s.dirty, s.next)
    case EndRecovery => s.mode.Checkpointing?
  }

  function Apply(s: State, step: Step): State
    requires Enabled(s, step) && s.base <= |s.log|
  {
    match step
    case Begin(spill) =>
      Append(s, Start(s.next + 1), Began(s.next + 1), spill)
        .(next := s.next + 1, txs := s.txs[s.next + 1 := Active])
    case Write(t, l, v, spill) =>
      var s' := Append(s, UpdateRecord(t, l, s.cur[l]), Wrote(t, l, v), spill);
      s'.(cur := s.cur[l := v], dirty := s.dirty[l.blk := Dirty(t, Some(Lsn(s')))], owner := s.owner[l.blk := t])
    case Touch(t, b, stale) =>
      s.(dirty := Marked(s, b, t, stale), owner := s.owner[b := t])
    case FlushBlock(b) =>
      FlushedTo(s, s.dirty[b].lsn).(disk := WrittenBack(s.disk, s.cur, b), dirty := s.dirty - {b})
    case FlushLog => FlushedLog(s)
    case AppendCommit(t, spill) =>
      var s' := Append(s, Commit(t), Committed(t), spill);
      s'.(txs := s.txs[t := Committing(Lsn(s'))])
    case EndCommit(t) => Ended(s, t, s.txs[t].lsn)
    case StartRollback(t) =>
      FlushedLog(s).(txs := s.txs[t := RollingBack(RollbackList(s.log, t))])
    case UndoRollback(t, stale) =>
      var todo := s.txs[t].todo;
      Undone(s, todo[0], t, stale).(txs := s.txs[t := RollingBack(todo[1..])])
    case AppendRollback(t, spill) =>
      var s' := Append(s, Rollback(t), RolledBack(t), spill);
      s'.(txs := s.txs[t := Aborting(Lsn(s'))])
    case EndRollback(t) => Ended(s, t, s.txs[t].lsn)
    case Crash =>
      State(s.disk, s.disk, map[], s.log[..s.saved], s.hist[..s.saved], s.saved, s.saved, 0, map[], map[], Down)
    case Restart(spill) =>
      Append(s, Start(1), Began(1), spill).(next := 1, mode := Restarted)
    case StartRecovery =>
      FlushedLog(s).(mode := Recovering(UndoList(s.log, [])))
    case UndoRecovery(stale) =>
      Undone(s, s.mode.todo[0], s.next, stale).(mode := Recovering(s.mode.todo[1..]))
    case AppendCheckpoint(spill) =>
      Append(s, Checkpoint, Recovered, spill).(mode := Checkpointing)
    case EndRecovery =>
      FlushedLog(s).(mode := Running, txs := map[s.next := Active])
  }

  // ---------------------------------------------------------------------------------------------
  // The invariant
  // ---------------------------------------------------------------------------------------------

  /** `v` holds the committed value wherever no unfinished transaction of the log has written. */
  ghost predicate Faithful(d: Store, v: Store, lg: seq<LogRecord>, h: seq<Event>) {
    var c := CommittedStore(d, h);
    forall l | l in d && !Covered(Undo(lg), l) :: l in v && l in c && v[l] == c[l]
  }

  /** Write-ahead logging: an update whose record is not yet on disk is held back in a dirty buffer. */
  ghost predicate WriteAhead(lg: seq<LogRecord>, saved: nat, base: nat, dirty: map<BlockId, Dirty>) {
    forall k | saved <= k < |lg| && lg[k].IsSet() :: HeldBack(lg[k].blk, k, base, dirty)
  }

  /** Block `b` is dirty, and may not reach the disk before log record `k` does. */
  predicate HeldBack(b: BlockId, k: nat, base: nat, dirty: map<BlockId, Dirty>) {
    b in dirty && dirty[b].lsn.Some? && base + dirty[b].lsn.value > k
  }

  ghost predicate DirtyWhereDifferent(disk: Store, cur: Store, dirty: map<BlockId, Dirty>) {
    forall l | l in disk && l in cur && cur[l] != disk[l] :: l.blk in dirty
  }

  /** Every update of `todo` belongs to a transaction that the log shows unfinished. */
  ghost predicate TodoCovered(todo: seq<LogRecord>, u: UndoMap) {
    forall k | 0 <= k < |todo| && todo[k].IsSet() :: CoveredBy(u, todo[k].tx, todo[k].Where())
  }

  ghost predicate TodoOf(todo: seq<LogRecord>, t: nat) {
    forall k | 0 <= k < |todo| && todo[k].IsSet() :: todo[k].tx == t
  }

  /** Undoing `todo` brings `l` back to its committed value. */
  ghost predicate Restorable(d: Store, cur: Store, h: seq<Event>, todo: seq<LogRecord>, l: Loc) {
    var v, c := ApplyUndo(todo, cur), CommittedStore(d, h);
    l in v && l in c && v[l] == c[l]
  }

  /** `l` holds what transaction `t` wrote there last. */
  ghost predicate HoldsPending(cur: Store, f: Ref, t: nat, l: Loc) {
    l in cur && t in f.pending && l in f.pending[t] && cur[l] == f.pending[t][l]
  }

  ghost predicate TxOk(d: Store, cur: Store, lg: seq<LogRecord>, h: seq<Event>, phase: TxPhase, t: nat) {
    var u := Undo(lg);
    match phase
    case Active =>
      && EntryOf(u, t) == Own(lg, t)
      && forall l | CoveredBy(u, t, l) :: HoldsPending(cur, RefOf(d, h), t, l)
    case RollingBack(todo) =>
      && TodoCovered(todo, u) && TodoOf(todo, t)
      && forall l | CoveredBy(u, t, l) :: Restorable(d, cur, h, todo, l)
    case _ => t !in u
  }

  ghost predicate TxsOk(d: Store, cur: Store, lg: seq<LogRecord>, h: seq<Event>, txs: map<nat, TxPhase>) {
    forall t | t in txs :: TxOk(d, cur, lg, h, txs[t], t)
  }

  /** Whoever has uncommitted updates in a block owns the block. */
  ghost predicate Holders(u: UndoMap, txs: map<nat, TxPhase>, owner: map<BlockId, nat>) {
    && u.Keys <= txs.Keys
    && forall t, l | CoveredBy(u, t, l) :: l.blk in owner && owner[l.blk] == t
  }

  ghost predicate DirtyOwned(dirty: map<BlockId, Dirty>, owner: map<BlockId, nat>) {
    forall b | b in dirty :: b in owner && owner[b] == dirty[b].tx
  }

  /** Owners are unfinished transactions, numbered up to `next`; finishing ones have flushed everything. */
  ghost predicate TxTable(txs: map<nat, TxPhase>, owner: map<BlockId, nat>, dirty: map<BlockId, Dirty>, next: nat) {
    && (forall b | b in owner :: owner[b] in txs)
    && (forall t | t in txs :: t <= next)
    && (forall t | t in txs && (txs[t].Committing? || txs[t].Aborting?) :: NoDirty(dirty, t))
  }

  ghost predicate RecoveringOk(d: Store, cur: Store, lg: seq<LogRecord>, h: seq<Event>, todo: seq<LogRecord>,
                               dirty: map<BlockId, Dirty>, r: nat) {
    && Own(lg, r) == map[]
    && TodoCovered(todo, Undo(lg))
    && (forall b | b in dirty :: dirty[b].tx == r)
    && forall l | l in d :: Restorable(d, cur, h, todo, l)
  }

  ghost predicate ModeOk(d: Store, s: State) {
    match s.mode
    case Down => s.dirty == map[] && s.saved == |s.log|
    case Restarted => s.dirty == map[] && Own(s.log, s.next) == map[]
    case Recovering(todo) => RecoveringOk(d, s.cur, s.log, s.hist, todo, s.dirty, s.next)
    case Checkpointing => s.dirty == map[] && Own(s.log, s.next) == map[] && Undo(s.log) == map[]
    case Running =>
      && TxsOk(d, s.cur, s.log, s.hist, s.txs)
      && Holders(Undo(s.log), s.txs, s.owner)
      && DirtyOwned(s.dirty, s.owner)
      && TxTable(s.txs, s.owner, s.dirty, s.next)
  }

  ghost predicate Inv(d: Store, s: State) {
    && s.disk.Keys == d.Keys && s.cur.Keys == d.Keys
    && s.base <= s.saved <= |s.log| == |s.hist|
    && GoodHistory(d, s.log, s.hist)
    // the disk alone, data and log, determines the committed store
    && Faithful(d, s.disk, s.log[..s.saved], s.hist[..s.saved])
    // a location without uncommitted updates is committed in memory and on disk
    && Faithful(d, s.disk, s.log, s.hist)
    && Faithful(d, s.cur, s.log, s.hist)
    && WriteAhead(s.log, s.saved, s.base, s.dirty)
    && DirtyWhereDifferent(s.disk, s.cur, s.dirty)
    && ModeOk(d, s)
    && (!s.mode.Running? ==> s.owner == map[] && s.txs == map[])
  }
}

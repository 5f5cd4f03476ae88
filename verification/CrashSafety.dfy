/**
 What holds over whole runs of the engine, for every database, every interleaving and every crash.
 */
module CrashSafety {
  import opened Types
  import opened LogMeaning
  import opened History
  import opened Engine
  import opened Preservation

  ghost predicate ValidRun(s: State, run: seq<Step>)
    decreases |run|
  {
    run == [] || (s.base <= |s.log| && Enabled(s, run[0]) && ValidRun(Apply(s, run[0]), run[1..]))
  }

  ghost function Exec(s: State, run: seq<Step>): State
    requires ValidRun(s, run)
    decreases |run|
  {
    if run == [] then s else Exec(Apply(s, run[0]), run[1..])
  }

  lemma {:induction false} RunAppend(s: State, run: seq<Step>, step: Step)
    requires ValidRun(s, run)
    requires var e := Exec(s, run); e.base <= |e.log| && Enabled(e, step)
    ensures ValidRun(s, run + [step]) && Exec(s, run + [step]) == Apply(Exec(s, run), step)
    decreases |run|
  {
    if run == [] {
      assert (run + [step])[1..] == [];
    } else {
      assert (run + [step])[1..] == run[1..] + [step];
      RunAppend(Apply(s, run[0]), run[1..], step);
    }
  }

  lemma {:induction false} RunKeeps(d: Store, s: State, run: seq<Step>)
    requires Inv(d, s) && ValidRun(s, run)
    ensures Inv(d, Exec(s, run))
    decreases |run|
  {
    if run != [] {
      StepKeeps(d, s, run[0]);
      RunKeeps(d, Apply(s, run[0]), run[1..]);
    }
  }

  lemma InitOk(d: Store)
    ensures Inv(d, Init(d))
  {
    var s := Init(d);
    assert GoodHistory(d, s.log, s.hist);
  }

  /** Every state that a run from a fresh database can reach satisfies the invariant. */
  lemma Reachable(d: Store, run: seq<Step>)
    requires ValidRun(Init(d), run)
    ensures Inv(d, Exec(Init(d), run))
  {
    InitOk(d);
    RunKeeps(d, Init(d), run);
  }

  /** The log records and the events that a crash in state `s` leaves behind. */
  function DurableLog(s: State): seq<LogRecord>
    requires s.saved <= |s.log|
  {
    s.log[..s.saved]
  }

  function DurableHistory(s: State): seq<Event>
    requires s.saved <= |s.hist|
  {
    s.hist[..s.saved]
  }

  /** The store that one complete recovery makes of a disk and the log on it. */
  function RecoveredStore(disk: Store, lg: seq<LogRecord>): Store {
    ApplyUndo(UndoList(lg, []), disk)
  }

  lemma {:induction false} UndoKeys(todo: seq<LogRecord>, v: Store, dom: set<Loc>)
    requires v.Keys == dom
    requires forall k | 0 <= k < |todo| && todo[k].IsSet() :: todo[k].Where() in dom
    ensures ApplyUndo(todo, v).Keys == dom
  {
    if todo != [] {
      UndoKeys(todo[1..], UndoOne(todo[0], v), dom);
    }
  }

  lemma DurableRecovers(d: Store, s: State)
    requires Inv(d, s)
    ensures RecoveredStore(s.disk, DurableLog(s)) == CommittedStore(d, DurableHistory(s))
    ensures CommittedStore(d, DurableHistory(s)).Keys == d.Keys
  {
    hide WriteAhead, DirtyWhereDifferent, ModeOk, Own, RollbackList, ApplyUndo, Exclusive, UndoList, Undo, RefOf;
    var lg, h := DurableLog(s), DurableHistory(s);
    GoodPrefix(d, s.log, s.hist, s.saved);
    var todo := UndoList(lg, []);
    forall k | 0 <= k < |todo| && todo[k].IsSet()
      ensures todo[k].Where() in d
    {
      UndoListCovered(lg, [], k);
    }
    UndoKeys(todo, s.disk, d.Keys);
    forall l | l in d
      ensures Restorable(d, s.disk, h, todo, l)
    {
      RecoveryRestores(d, s.disk, lg, h, l);
    }
    GoodKeys(d, lg, h);
  }

  lemma GoodKeys(d: Store, lg: seq<LogRecord>, h: seq<Event>)
    requires GoodHistory(d, lg, h)
    ensures CommittedStore(d, h).Keys == d.Keys
  {}

  /**
   Crash safety. Stop any run at any step: recovery of what is then on disk gives the store left by
   exactly the transactions whose COMMIT record is on disk, and no trace of any other.
   */
  lemma CrashSafe(d: Store, run: seq<Step>)
    requires ValidRun(Init(d), run)
    ensures var s := Exec(Init(d), run);
            && s.saved <= |s.log| == |s.hist|
            && RecoveredStore(s.disk, DurableLog(s)) == CommittedStore(d, DurableHistory(s))
  {
    Reachable(d, run);
    DurableRecovers(d, Exec(Init(d), run));
  }

  predicate IsRecoveryStep(step: Step) {
    step.Crash? || step.Restart? || step.StartRecovery? || step.UndoRecovery? || step.FlushBlock?
    || step.FlushLog? || step.AppendCheckpoint? || step.EndRecovery?
  }

  /** While only recovery runs, however often it crashes, nothing is committed and nothing is lost. */
  ghost predicate InRecovery(d: Store, s: State, c: Store) {
    && s.saved <= |s.hist|
    && CommittedStore(d, s.hist) == c
    && CommittedStore(d, DurableHistory(s)) == c
    && (s.mode.Running? ==> Undo(s.log) == map[] && s.dirty == map[])
  }

  /** A step that appends nothing leaves the history, and flushes all of it or nothing. */
  lemma QuietStep(s: State, step: Step)
    requires Enabled(s, step) && s.base <= |s.log| == |s.hist| && s.saved <= |s.log|
    requires step.StartRecovery? || step.UndoRecovery? || step.FlushBlock? || step.FlushLog? || step.EndRecovery?
    ensures var s' := Apply(s, step);
            && s'.hist == s.hist && s'.log == s.log && s'.saved <= |s'.hist|
            && (DurableHistory(s') == DurableHistory(s) || DurableHistory(s') == s.hist)
    ensures Apply(s, step).mode.Running? ==>
              || (s.mode.Checkpointing? && Apply(s, step).dirty == s.dirty)
              || (s.mode.Running? && (s.dirty == map[] ==> Apply(s, step).dirty == map[]))
  {
    assert s.hist[..|s.hist|] == s.hist;
  }

  lemma InRecoveryStep(d: Store, s: State, step: Step, c: Store)
    requires Inv(d, s) && Enabled(s, step) && IsRecoveryStep(step) && InRecovery(d, s, c)
    ensures InRecovery(d, Apply(s, step), c)
  {
    hide Inv, CommittedStore, Undo, Own, UndoList, RollbackList, ApplyUndo, Exclusive, RefOf;
    InvFacts(d, s);
    match step
    case Restart(_) => RecoveryAppends(d, s, Began(1));
    case AppendCheckpoint(_) => RecoveryAppends(d, s, Recovered);
    case Crash => assert s.hist[..s.saved][..s.saved] == s.hist[..s.saved];
    case _ =>
      QuietStep(s, step);
      hide Apply;
  }

  /** The bounds that make the parts of a state fit together. */
  predicate Sane(s: State) {
    s.base <= s.saved <= |s.log| == |s.hist| && s.disk.Keys == s.cur.Keys
  }

  lemma InvFacts(d: Store, s: State)
    requires Inv(d, s)
    ensures Sane(s) && s.disk.Keys == d.Keys
    ensures s.mode.Checkpointing? ==> s.dirty == map[] && Undo(s.log) == map[]
  {}

  lemma RecoveryAppends(d: Store, s: State, e: Event)
    requires s.saved <= |s.hist| && (e.Began? || e.Recovered?)
    ensures CommittedStore(d, s.hist + [e]) == CommittedStore(d, s.hist)
    ensures (s.hist + [e])[..s.saved] == s.hist[..s.saved]
    ensures (s.hist + [e])[..|s.hist|] == s.hist
  {}

  lemma {:induction false} InRecoveryRun(d: Store, s: State, run: seq<Step>, c: Store)
    requires Inv(d, s) && ValidRun(s, run) && InRecovery(d, s, c)
    requires forall k | 0 <= k < |run| :: IsRecoveryStep(run[k])
    ensures Inv(d, Exec(s, run)) && InRecovery(d, Exec(s, run), c)
    decreases |run|
  {
    if run != [] {
      InRecoveryStep(d, s, run[0], c);
      StepKeeps(d, s, run[0]);
      InRecoveryRun(d, Apply(s, run[0]), run[1..], c);
    }
  }

  /** When recovery has completed, memory and disk both hold the committed store. */
  lemma RecoveredState(d: Store, s: State, c: Store)
    requires Inv(d, s) && InRecovery(d, s, c) && s.mode.Running? && c.Keys == d.Keys
    ensures s.disk == c && s.cur == c
  {
    hide GoodHistory, WriteAhead, DirtyWhereDifferent, ModeOk, Own, UndoList, RollbackList, ApplyUndo, Exclusive;
    assert forall l :: !Covered(Undo(s.log), l);
  }

  /**
   Recovery may itself be cut short any number of times, at any undo or flush. When it finally
   completes, memory and disk hold what one undisturbed recovery would have left, which is the
   committed store; and the CHECKPOINT record it stops at next time hides nothing.
   */
  lemma RecoveryIsIdempotent(d: Store, run: seq<Step>, recovery: seq<Step>)
    requires ValidRun(Init(d), run)
    requires ValidRun(Exec(Init(d), run), [Crash] + recovery)
    requires forall k | 0 <= k < |recovery| :: IsRecoveryStep(recovery[k])
    requires Exec(Exec(Init(d), run), [Crash] + recovery).mode.Running?
    ensures var s, s' := Exec(Init(d), run), Exec(Exec(Init(d), run), [Crash] + recovery);
            && s.saved <= |s.log| == |s.hist|
            && s'.disk == s'.cur == RecoveredStore(s.disk, DurableLog(s))
            && s'.disk == CommittedStore(d, DurableHistory(s))
  {
    hide Inv, CommittedStore, RecoveredStore, IsRecoveryStep;
    Reachable(d, run);
    var s := Exec(Init(d), run);
    InvFacts(d, s);
    DurableRecovers(d, s);
    StepKeeps(d, s, Crash);
    var c := CommittedStore(d, DurableHistory(s));
    assert s.hist[..s.saved][..s.saved] == s.hist[..s.saved];
    assert ([Crash] + recovery)[1..] == recovery;
    InRecoveryRun(d, Apply(s, Crash), recovery, c);
    RecoveredState(d, Exec(Apply(s, Crash), recovery), c);
  }

  /** Only a flush of its block changes what the disk holds at a location. */
  lemma OnlyFlushWrites(s: State, step: Step, l: Loc)
    requires s.base <= |s.log| && Enabled(s, step) && l in s.disk
    ensures l in Apply(s, step).disk
    ensures Apply(s, step).disk[l] != s.disk[l] ==> step == FlushBlock(l.blk)
  {}

  /**
   Write-ahead logging. Whenever a step changes what the disk holds at `l`, every update ever logged for
   that block has its record on disk by then.
   */
  lemma WriteAheadOrder(d: Store, run: seq<Step>, step: Step, l: Loc)
    requires ValidRun(Init(d), run) && Enabled(Exec(Init(d), run), step)
    requires l in d
    ensures var s := Exec(Init(d), run);
            && s.base <= s.saved <= |s.log| && l in s.disk
            && var s' := Apply(s, step);
            && l in s'.disk
            && (s'.disk[l] != s.disk[l] ==>
                  forall k | s'.saved <= k < |s'.log| && s'.log[k].IsSet() :: s'.log[k].blk != l.blk)
  {
    hide Faithful, GoodHistory, WriteAhead, DirtyWhereDifferent, ModeOk, Undo, RefOf;
    Reachable(d, run);
    var s := Exec(Init(d), run);
    OnlyFlushWrites(s, step, l);
    if step == FlushBlock(l.blk) {
      FlushedFarEnough(d, s, l.blk);
    }
  }

  /**
   Force. Take the history up to a durable COMMIT or ROLLBACK of `t` at position `k`, and a location `t`
   had written. Unless somebody has durably logged a later write there, the disk holds the committed value:
   the one `t` wrote last if it committed, and the one from before `t` if it rolled back.
   */
  lemma ForcedToDisk(d: Store, run: seq<Step>, k: nat, t: nat, l: Loc)
    requires ValidRun(Init(d), run)
    requires var s := Exec(Init(d), run);
             && k < s.saved <= |s.log| == |s.hist|
             && (s.log[k] == Commit(t) || s.log[k] == Rollback(t))
             && t in RefOf(d, s.hist[..k]).pending && l in RefOf(d, s.hist[..k]).pending[t]
             && (forall j | k < j < s.saved && s.log[j].IsSet() :: s.log[j].Where() != l)
    ensures var s := Exec(Init(d), run);
            var f := RefOf(d, s.hist[..k]);
            && l in s.disk && l in f.db
            && s.disk[l] == if s.log[k].Commit? then f.pending[t][l] else f.db[l]
  {
    Reachable(d, run);
    var s := Exec(Init(d), run);
    InvFacts(d, s);
    var lg, h := s.log[..s.saved], s.hist[..s.saved];
    GoodPrefix(d, s.log, s.hist, s.saved);
    assert lg[..k] == s.log[..k] && h[..k] == s.hist[..k];
    FinishedValue(d, lg, h, k, t, l);
    DiskFaithful(d, s, l);
  }

  // ---------------------------------------------------------------------------------------------
  // Durability
  // ---------------------------------------------------------------------------------------------

  /** The record with sequence number `lsn` is `r`, and stands for event `e`. */
  predicate RecordAt(s: State, lsn: nat, r: LogRecord, e: Event) {
    && 0 < s.base + lsn <= |s.log| && s.base + lsn <= |s.hist|
    && s.log[s.base + lsn - 1] == r && s.hist[s.base + lsn - 1] == e
  }

  /** A finishing transaction remembers the sequence number of its last record. */
  predicate EndRecord(s: State, t: nat)
    requires t in s.txs
  {
    && (s.txs[t].Committing? ==> RecordAt(s, s.txs[t].lsn, Commit(t), Committed(t)))
    && (s.txs[t].Aborting? ==> RecordAt(s, s.txs[t].lsn, Rollback(t), RolledBack(t)))
  }

  predicate EndRecords(s: State) {
    forall t | t in s.txs :: EndRecord(s, t)
  }

  /** No step but a crash takes records away. */
  lemma OnlyAppends(s: State, step: Step)
    requires Enabled(s, step) && s.base <= |s.log| && !step.Crash?
    ensures var s' := Apply(s, step); s'.base == s.base && s.log <= s'.log && s.hist <= s'.hist
  {}

  /** A transaction begins to finish by appending its last record. */
  lemma EndRecordNew(s: State, step: Step, t: nat)
    requires Enabled(s, step) && s.base <= |s.log| == |s.hist| && t in Apply(s, step).txs
    ensures EndRecord(Apply(s, step), t) || (t in s.txs && Apply(s, step).txs[t] == s.txs[t] && !step.Crash?)
  {
    hide UndoList, RollbackList, UndoOne, Marked, WrittenBack, NoDirty, SameKind;
  }

  lemma EndRecordsStep(s: State, step: Step)
    requires Enabled(s, step) && s.base <= |s.log| == |s.hist| && EndRecords(s)
    ensures EndRecords(Apply(s, step))
  {
    hide Apply, Enabled;
    if !step.Crash? {
      OnlyAppends(s, step);
    }
    forall t | t in Apply(s, step).txs
      ensures EndRecord(Apply(s, step), t)
    {
      EndRecordNew(s, step, t);
    }
  }

  lemma {:induction false} EndRecordsRun(d: Store, s: State, run: seq<Step>)
    requires Inv(d, s) && ValidRun(s, run) && EndRecords(s)
    ensures EndRecords(Exec(s, run))
    decreases |run|
  {
    hide Inv, Apply, EndRecords;
    if run != [] {
      InvFacts(d, s);
      EndRecordsStep(s, run[0]);
      StepKeeps(d, s, run[0]);
      EndRecordsRun(d, Apply(s, run[0]), run[1..]);
    }
  }

  /** What has reached the log on disk stays there. */
  lemma DurableStep(s: State, step: Step)
    requires Sane(s) && Enabled(s, step) && s.base <= |s.log|
    ensures var s' := Apply(s, step);
            s.saved <= s'.saved && s.saved <= |s'.hist| && s'.hist[..s.saved] == DurableHistory(s)
  {}

  lemma {:induction false} DurableRun(d: Store, s: State, run: seq<Step>)
    requires Inv(d, s) && ValidRun(s, run)
    ensures Inv(d, Exec(s, run)) && s.saved <= |s.hist|
    ensures var s' := Exec(s, run); s'.saved <= |s'.hist| && DurableHistory(s) <= DurableHistory(s')
    decreases |run|
  {
    hide Inv, Apply, Enabled;
    InvFacts(d, s);
    if run != [] {
      StepKeeps(d, s, run[0]);
      DurableStep(s, run[0]);
      InvFacts(d, Apply(s, run[0]));
      var s1 := Apply(s, run[0]);
      assert s1.hist[..s.saved] == s1.hist[..s1.saved][..s.saved];
      DurableRun(d, s1, run[1..]);
    }
  }

  lemma EndCommitSaves(s: State, t: nat)
    requires Sane(s) && EndRecords(s) && Enabled(s, EndCommit(t))
    ensures RecordAt(s, s.txs[t].lsn, Commit(t), Committed(t))
    ensures var m := Apply(s, EndCommit(t)); s.base + s.txs[t].lsn <= m.saved && m.hist == s.hist
  {
    assert EndRecord(s, t);
  }

  /**
   Durability. Once the commit of `t` has returned, its COMMIT record is on disk, whether this commit or a full log page
   has sent it there; and it stays there, whatever comes next, crashes included. `CrashSafe` then says
   that every later recovery brings back what `t` wrote.
   */
  lemma CommitDurable(d: Store, before: seq<Step>, t: nat, after: seq<Step>)
    requires ValidRun(Init(d), before) && Enabled(Exec(Init(d), before), EndCommit(t))
    requires ValidRun(Exec(Init(d), before), [EndCommit(t)] + after)
    ensures var s, s' := Exec(Init(d), before), Exec(Exec(Init(d), before), [EndCommit(t)] + after);
            && RecordAt(s, s.txs[t].lsn, Commit(t), Committed(t))
            && var k := s.base + s.txs[t].lsn - 1;
            && k < s'.saved <= |s'.hist|
            && DurableHistory(s')[..k] == s.hist[..k] && DurableHistory(s')[k] == Committed(t)
  {
    hide Inv;
    Reachable(d, before);
    InitOk(d);
    assert EndRecords(Init(d));
    hide EndRecords;
    EndRecordsRun(d, Init(d), before);
    var s := Exec(Init(d), before);
    InvFacts(d, s);
    EndCommitSaves(s, t);
    var k := s.base + s.txs[t].lsn - 1;
    StepKeeps(d, s, EndCommit(t));
    assert ([EndCommit(t)] + after)[1..] == after;
    hide Apply;
    var m := Apply(s, EndCommit(t));
    DurableRun(d, m, after);
    var s' := Exec(m, after);
    assert DurableHistory(s')[..k] == DurableHistory(m)[..k];
  }

  lemma DiskFaithful(d: Store, s: State, l: Loc)
    requires Inv(d, s) && l in d && !Covered(Undo(s.log[..s.saved]), l)
    ensures l in s.disk && l in CommittedStore(d, s.hist[..s.saved])
    ensures s.disk[l] == CommittedStore(d, s.hist[..s.saved])[l]
  {}

  /** Right behind the record that finishes `t`. */
  lemma FinishedNow(d: Store, lg: seq<LogRecord>, h: seq<Event>, r: LogRecord, e: Event, t: nat, l: Loc)
    requires GoodHistory(d, lg, h) && Matches(r, e) && (r == Commit(t) || r == Rollback(t))
    requires t in RefOf(d, h).pending && l in RefOf(d, h).pending[t]
    ensures l in d && !Covered(Undo(lg + [r]), l) && l in CommittedStore(d, h) && l in CommittedStore(d, h + [e])
    ensures CommittedStore(d, h + [e])[l] == if r.Commit? then RefOf(d, h).pending[t][l] else CommittedStore(d, h)[l]
  {
    GoodAppend(d, lg, h, r, e);
    GoodKeys(d, lg, h);
    assert CoveredBy(Undo(lg), t, l);
    forall t'
      ensures !CoveredBy(Undo(lg + [r]), t', l)
    {
      FinishCovers(Undo(lg), t, t', l);
    }
  }

  lemma MatchAt(d: Store, lg: seq<LogRecord>, h: seq<Event>, k: nat)
    requires GoodHistory(d, lg, h) && k < |lg|
    ensures |lg| == |h| && Matches(lg[k], h[k])
  {}

  /** What a finished transaction wrote stays committed, or stays undone, until the next write. */
  lemma FinishedValue(d: Store, lg: seq<LogRecord>, h: seq<Event>, k: nat, t: nat, l: Loc)
    requires GoodHistory(d, lg, h) && k < |lg| == |h|
    requires lg[k] == Commit(t) || lg[k] == Rollback(t)
    requires t in RefOf(d, h[..k]).pending && l in RefOf(d, h[..k]).pending[t]
    requires forall j | k < j < |lg| && lg[j].IsSet() :: lg[j].Where() != l
    ensures l in d && !Covered(Undo(lg), l) && l in CommittedStore(d, h) && l in CommittedStore(d, h[..k])
    ensures CommittedStore(d, h)[l] ==
            if lg[k].Commit? then RefOf(d, h[..k]).pending[t][l] else CommittedStore(d, h[..k])[l]
  {
    hide GoodHistory, Undo, RefOf;
    MatchAt(d, lg, h, k);
    GoodPrefix(d, lg, h, k);
    FinishedNow(d, lg[..k], h[..k], lg[k], h[k], t, l);
    assert lg[..k + 1] == lg[..k] + [lg[k]] && h[..k + 1] == h[..k] + [h[k]];
    QuietSuffix(d, lg, h, k + 1, l);
  }

  /**
   What readers see. In every running state a location holds what its unfinished writer wrote last, or,
   if it has none, the committed value.
   */
  lemma ReadersSee(d: Store, run: seq<Step>, l: Loc)
    requires ValidRun(Init(d), run) && l in d
    requires Exec(Init(d), run).mode.Running?
    ensures var s := Exec(Init(d), run);
            var f := RefOf(d, s.hist);
            && l in s.cur && l in f.db
            && (forall t | t in s.txs && s.txs[t].Active? && t in f.pending && l in f.pending[t] ::
                  s.cur[l] == f.pending[t][l])
            && ((forall t | t in f.pending :: l !in f.pending[t]) ==> s.cur[l] == f.db[l])
  {
    Reachable(d, run);
    var s := Exec(Init(d), run);
    var f := RefOf(d, s.hist);
    InvFacts(d, s);
    GoodKeys(d, s.log, s.hist);
    forall t | t in s.txs && s.txs[t].Active? && t in f.pending && l in f.pending[t]
      ensures s.cur[l] == f.pending[t][l]
    {
      assert TxOk(d, s.cur, s.log, s.hist, s.txs[t], t);
      assert CoveredBy(Undo(s.log), t, l);
      assert HoldsPending(s.cur, f, t, l);
    }
    if forall t | t in f.pending :: l !in f.pending[t] {
      assert !Covered(Undo(s.log), l);
    }
  }

  // ---------------------------------------------------------------------------------------------
  // Rollback among other transactions
  // ---------------------------------------------------------------------------------------------

  /** A step that neither crashes nor ends the rollback of `t`. */
  predicate LeavesRollback(step: Step, t: nat) {
    !step.Crash? && step != EndRollback(t) && (step.AppendRollback? ==> step.t != t)
  }

  /** `l` is written by a step other than an undo of `t`. */
  predicate WrittenByOthers(s: State, step: Step, t: nat, l: Loc) {
    || (step.Write? && step.l == l)
    || (step.UndoRollback? && step.t != t && step.t in s.txs && s.txs[step.t].RollingBack?
        && s.txs[step.t].todo != [] && s.txs[step.t].todo[0].IsSet() && s.txs[step.t].todo[0].Where() == l)
  }

  /** The rollback of `t` is under way, and its undo values have not changed since it began. */
  ghost predicate RollbackGoesOn(s: State, t: nat, entry: Store) {
    s.mode.Running? && t in s.txs && s.txs[t].RollingBack? && EntryOf(Undo(s.log), t) == entry
  }

  /** The log record that a step of a running engine appends, if any. */
  function RecordOf(s: State, step: Step): seq<LogRecord>
    requires Enabled(s, step)
  {
    match step
    case Begin(_) => [Start(s.next + 1)]
    case Write(t, l, _, _) => [UpdateRecord(t, l, s.cur[l])]
    case AppendCommit(t, _) => [Commit(t)]
    case AppendRollback(t, _) => [Rollback(t)]
    case _ => []
  }

  lemma LogOfStep(s: State, step: Step)
    requires Enabled(s, step) && s.base <= |s.log| && s.mode.Running? && !step.Crash?
    ensures Apply(s, step).log == s.log + RecordOf(s, step)
  {
    assert s.log + [] == s.log;
  }

  /** A record that neither finishes `t` nor is an update of `t` leaves its entry. */
  lemma EntryKept(lg: seq<LogRecord>, r: LogRecord, t: nat)
    requires !r.Checkpoint? && (r.Commit? || r.Rollback? || r.IsSet() ==> r.tx != t)
    ensures EntryOf(Undo(lg + [r]), t) == EntryOf(Undo(lg), t)
  {
    assert (lg + [r])[..|lg|] == lg;
  }

  lemma PhaseKept(s: State, step: Step, t: nat)
    requires Enabled(s, step) && s.base <= |s.log| && s.mode.Running? && LeavesRollback(step, t)
    requires t in s.txs && s.txs[t].RollingBack? && t <= s.next
    ensures var s' := Apply(s, step); s'.mode.Running? && t in s'.txs && s'.txs[t].RollingBack?
  {}

  lemma TxNumbered(d: Store, s: State, t: nat)
    requires Inv(d, s) && s.mode.Running? && t in s.txs
    ensures t <= s.next && s.base <= |s.log|
  {}

  lemma RollbackGoesOnStep(d: Store, s: State, step: Step, t: nat, entry: Store)
    requires Inv(d, s) && Enabled(s, step) && RollbackGoesOn(s, t, entry) && LeavesRollback(step, t)
    ensures RollbackGoesOn(Apply(s, step), t, entry)
  {
    hide Inv, Undo;
    TxNumbered(d, s, t);
    PhaseKept(s, step, t);
    LogOfStep(s, step);
    hide Apply;
    var rs := RecordOf(s, step);
    if rs != [] {
      EntryKept(s.log, rs[0], t);
      assert rs == [rs[0]];
    } else {
      assert s.log + rs == s.log;
    }
  }

  /** The undo steps of `t` change only what `t` has logged. */
  lemma RollbackFrame(d: Store, s: State, step: Step, t: nat, l: Loc)
    requires Inv(d, s) && Enabled(s, step) && s.mode.Running? && t in s.txs && s.txs[t].RollingBack?
    requires l in d && l !in EntryOf(Undo(s.log), t) && LeavesRollback(step, t)
    requires !WrittenByOthers(s, step, t, l)
    ensures l in s.cur && l in Apply(s, step).cur && Apply(s, step).cur[l] == s.cur[l]
  {
    hide ApplyUndo, UndoList, RollbackList, Exclusive, Own, Faithful, GoodHistory, WriteAhead, RefOf;
    hide Undo, TxsOk, Holders, DirtyOwned, TxTable, DirtyWhereDifferent;
    if step.UndoRollback? && step.t == t {
      UndoRollbackTarget(d, s, t);
    }
  }

  /** Nobody but `t` writes `l` during the run. */
  ghost predicate NobodyElseWrites(s: State, run: seq<Step>, t: nat, l: Loc)
    requires ValidRun(s, run)
    decreases |run|
  {
    run == [] || (!WrittenByOthers(s, run[0], t, l) && NobodyElseWrites(Apply(s, run[0]), run[1..], t, l))
  }

  lemma {:induction false} RollbackRun(d: Store, s: State, run: seq<Step>, t: nat, entry: Store)
    requires Inv(d, s) && ValidRun(s, run) && RollbackGoesOn(s, t, entry)
    requires forall k | 0 <= k < |run| :: LeavesRollback(run[k], t)
    ensures Inv(d, Exec(s, run)) && RollbackGoesOn(Exec(s, run), t, entry)
    decreases |run|
  {
    hide Inv, Apply, RollbackGoesOn;
    if run != [] {
      StepKeeps(d, s, run[0]);
      RollbackGoesOnStep(d, s, run[0], t, entry);
      RollbackRun(d, Apply(s, run[0]), run[1..], t, entry);
    }
  }

  lemma {:induction false} RollbackRunFrame(d: Store, s: State, run: seq<Step>, t: nat, entry: Store, l: Loc)
    requires Inv(d, s) && ValidRun(s, run) && RollbackGoesOn(s, t, entry)
    requires forall k | 0 <= k < |run| :: LeavesRollback(run[k], t)
    requires l in d && l !in entry && NobodyElseWrites(s, run, t, l)
    ensures l in s.cur && l in Exec(s, run).cur && Exec(s, run).cur[l] == s.cur[l]
    decreases |run|
  {
    hide Faithful, GoodHistory, WriteAhead, DirtyWhereDifferent, ModeOk, Undo, RefOf, Apply, LeavesRollback,
         WrittenByOthers;
    if run != [] {
      StepKeeps(d, s, run[0]);
      RollbackGoesOnStep(d, s, run[0], t, entry);
      RollbackFrame(d, s, run[0], t, l);
      RollbackRunFrame(d, Apply(s, run[0]), run[1..], t, entry, l);
    }
  }

  lemma RollbackBegins(d: Store, s: State, t: nat)
    requires Inv(d, s) && Enabled(s, StartRollback(t))
    ensures Inv(d, Apply(s, StartRollback(t)))
    ensures RollbackGoesOn(Apply(s, StartRollback(t)), t, Own(s.log, t))
    ensures Apply(s, StartRollback(t)).cur == s.cur
  {
    hide Faithful, GoodHistory, WriteAhead, DirtyWhereDifferent, Undo, RefOf, Own, UndoList, RollbackList, ApplyUndo,
         Exclusive;
    StepKeeps(d, s, StartRollback(t));
    assert TxOk(d, s.cur, s.log, s.hist, s.txs[t], t);
  }

  /**
   Rollback. Let `t` begin to roll back while other transactions go on in any way. When it is about to
   write its ROLLBACK record, every location that `t` logged since its START holds, in memory and on disk,
   the value that `t` found there, which is the committed one; and every other location holds what the
   others made of it.
   */
  lemma RollbackRestores(d: Store, before: seq<Step>, t: nat, during: seq<Step>)
    requires ValidRun(Init(d), before)
    requires ValidRun(Exec(Init(d), before), [StartRollback(t)] + during)
    requires forall k | 0 <= k < |during| :: LeavesRollback(during[k], t)
    requires Enabled(Exec(Exec(Init(d), before), [StartRollback(t)] + during), AppendRollback(t, false))
    ensures var s, s' := Exec(Init(d), before), Exec(Exec(Init(d), before), [StartRollback(t)] + during);
            && (forall l | l in Own(s.log, t) :: RestoredTo(d, s', l, Own(s.log, t)[l]))
            && forall l | l in d && l !in Own(s.log, t) && NobodyElseWrites(s, [StartRollback(t)] + during, t, l) ::
                 l in s.cur && l in s'.cur && s'.cur[l] == s.cur[l]
  {
    hide Inv, Apply, Enabled, RestoredTo, Own, RollbackGoesOn, LeavesRollback, WrittenByOthers;
    Reachable(d, before);
    var s := Exec(Init(d), before);
    assert ([StartRollback(t)] + during)[1..] == during;
    assert Enabled(s, StartRollback(t));
    var m := Apply(s, StartRollback(t));
    RollbackBegins(d, s, t);
    var entry := Own(s.log, t);
    RollbackRun(d, m, during, t, entry);
    var s' := Exec(m, during);
    forall l | l in entry
      ensures RestoredTo(d, s', l, entry[l])
    {
      UndoneValue(d, s', t, entry, l);
    }
    forall l | l in d && l !in entry && NobodyElseWrites(s, [StartRollback(t)] + during, t, l)
      ensures l in s.cur && l in s'.cur && s'.cur[l] == s.cur[l]
    {
      RollbackRunFrame(d, m, during, t, entry, l);
    }
  }

  /** `l` holds `v` in memory and on disk, and `v` is its committed value. */
  ghost predicate RestoredTo(d: Store, s: State, l: Loc, v: Value) {
    && l in s.cur && l in s.disk && l in CommittedStore(d, s.hist)
    && s.cur[l] == v && s.disk[l] == v && CommittedStore(d, s.hist)[l] == v
  }

  lemma UndoneValue(d: Store, s: State, t: nat, entry: Store, l: Loc)
    requires Inv(d, s) && Enabled(s, AppendRollback(t, false))
    requires RollbackGoesOn(s, t, entry) && l in entry
    ensures RestoredTo(d, s, l, entry[l])
  {
    RollbackValues(d, s, t);
    assert CoveredBy(Undo(s.log), t, l);
  }
}

/**
 Every step of the engine keeps the invariant.
 */
module Preservation {
  import opened Types
  import opened LogMeaning
  import opened History
  import opened Engine

  // ---------------------------------------------------------------------------------------------
  // Frames
  // ---------------------------------------------------------------------------------------------

  /** The undo of a list at `l` depends only on the value at `l`. */
  lemma {:induction false} UndoLocal(todo: seq<LogRecord>, v: Store, w: Store, l: Loc)
    requires l in v && l in w && v[l] == w[l]
    ensures var v', w' := ApplyUndo(todo, v), ApplyUndo(todo, w); l in v' && l in w' && v'[l] == w'[l]
  {
    if todo != [] {
      UndoLocal(todo[1..], UndoOne(todo[0], v), UndoOne(todo[0], w), l);
    }
  }

  /** Transaction `t` is not concerned by a change of the values and of the log. */
  lemma UnconcernedTx(d: Store, phase: TxPhase, t: nat,
                      cur: Store, lg: seq<LogRecord>, h: seq<Event>,
                      cur': Store, lg': seq<LogRecord>, h': seq<Event>)
    requires TxOk(d, cur, lg, h, phase, t)
    requires var u, u' := Undo(lg), Undo(lg'); (t in u <==> t in u') && EntryOf(u, t) == EntryOf(u', t)
    requires Own(lg', t) == Own(lg, t)
    requires var f, f' := RefOf(d, h), RefOf(d, h');
             forall l | CoveredBy(Undo(lg), t, l) ::
               && l in cur && l in cur' && cur'[l] == cur[l]
               && EntryOf(f'.pending, t) == EntryOf(f.pending, t)
               && l in f.db && l in f'.db && f'.db[l] == f.db[l]
    ensures TxOk(d, cur', lg', h', phase, t)
  {
    var u, u' := Undo(lg), Undo(lg');
    assert forall l :: CoveredBy(u, t, l) <==> CoveredBy(u', t, l);
    if phase.RollingBack? {
      var todo := phase.todo;
      forall l | CoveredBy(u', t, l)
        ensures Restorable(d, cur', h', todo, l)
      {
        assert Restorable(d, cur, h, todo, l);
        UndoLocal(todo, cur, cur', l);
      }
    } else if phase.Active? {
      forall l | CoveredBy(u', t, l)
        ensures HoldsPending(cur', RefOf(d, h'), t, l)
      {
        assert HoldsPending(cur, RefOf(d, h), t, l);
      }
    }
  }

  // ---------------------------------------------------------------------------------------------
  // Flushing
  // ---------------------------------------------------------------------------------------------

  lemma FlushLogKeeps(d: Store, s: State)
    requires Inv(d, s)
    ensures Inv(d, FlushedLog(s))
  {
    assert s.log[..|s.log|] == s.log && s.hist[..|s.log|] == s.hist;
  }

  /** Once the log is flushed as far as the buffer asks, no record about block `b` is missing on disk. */
  lemma FlushedFarEnough(d: Store, s: State, b: BlockId)
    requires Inv(d, s) && b in s.dirty
    ensures Inv(d, FlushedTo(s, s.dirty[b].lsn))
    ensures var s' := FlushedTo(s, s.dirty[b].lsn);
            forall k | s'.saved <= k < |s'.log| && s'.log[k].IsSet() :: s'.log[k].blk != b
  {
    FlushLogKeeps(d, s);
    assert forall k | s.saved <= k < |s.log| && s.log[k].IsSet() && s.log[k].blk == b ::
        HeldBack(b, k, s.base, s.dirty);
  }

  lemma WriteBackFaithful(d: Store, disk: Store, cur: Store, b: BlockId,
                          lg: seq<LogRecord>, h: seq<Event>, n: nat)
    requires disk.Keys == d.Keys && cur.Keys == d.Keys && n <= |lg| && GoodHistory(d, lg, h)
    requires Faithful(d, disk, lg[..n], h[..n]) && Faithful(d, cur, lg, h)
    requires forall k | n <= k < |lg| && lg[k].IsSet() :: lg[k].blk != b
    ensures Faithful(d, WrittenBack(disk, cur, b), lg[..n], h[..n])
  {
    GoodPrefix(d, lg, h, n);
    forall l | l in d && !Covered(Undo(lg[..n]), l)
      ensures WrittenBack(disk, cur, b)[l] == CommittedStore(d, h[..n])[l]
    {
      if l.blk == b {
        QuietSuffix(d, lg, h, n, l);
      }
    }
  }

  lemma WriteBackHeld(lg: seq<LogRecord>, saved: nat, base: nat, dirty: map<BlockId, Dirty>, b: BlockId)
    requires WriteAhead(lg, saved, base, dirty)
    requires forall k | saved <= k < |lg| && lg[k].IsSet() :: lg[k].blk != b
    ensures WriteAhead(lg, saved, base, dirty - {b})
  {
    forall k | saved <= k < |lg| && lg[k].IsSet()
      ensures HeldBack(lg[k].blk, k, base, dirty - {b})
    {
      assert HeldBack(lg[k].blk, k, base, dirty);
    }
  }

  lemma WriteBackSettled(d: Store, disk: Store, cur: Store, b: BlockId, lg: seq<LogRecord>, h: seq<Event>)
    requires disk.Keys == cur.Keys && Faithful(d, disk, lg, h) && Faithful(d, cur, lg, h)
    ensures Faithful(d, WrittenBack(disk, cur, b), lg, h)
  {}

  lemma FlushedTable(disk: Store, cur: Store, txs: map<nat, TxPhase>, owner: map<BlockId, nat>,
                     dirty: map<BlockId, Dirty>, next: nat, b: BlockId)
    requires disk.Keys == cur.Keys
    ensures DirtyWhereDifferent(disk, cur, dirty) ==> DirtyWhereDifferent(WrittenBack(disk, cur, b), cur, dirty - {b})
    ensures DirtyOwned(dirty, owner) ==> DirtyOwned(dirty - {b}, owner)
    ensures TxTable(txs, owner, dirty, next) ==> TxTable(txs, owner, dirty - {b}, next)
  {}

  lemma FlushBlockKeeps(d: Store, s: State, b: BlockId)
    requires Inv(d, s) && Enabled(s, FlushBlock(b))
    ensures Inv(d, Apply(s, FlushBlock(b)))
  {
    hide Faithful, WriteAhead, GoodHistory, TxsOk, Holders, Undo, RefOf, Own, UndoList, RollbackList, ApplyUndo,
         Exclusive;
    hide DirtyWhereDifferent, DirtyOwned, TxTable, CommittedStore;
    FlushedFarEnough(d, s, b);
    var m := FlushedTo(s, s.dirty[b].lsn);
    FlushedTable(m.disk, m.cur, m.txs, m.owner, m.dirty, m.next, b);
    WriteBackFaithful(d, m.disk, m.cur, b, m.log, m.hist, m.saved);
    WriteBackSettled(d, m.disk, m.cur, b, m.log, m.hist);
    WriteBackHeld(m.log, m.saved, m.base, m.dirty, b);
  }

  // ---------------------------------------------------------------------------------------------
  // Records
  // ---------------------------------------------------------------------------------------------

  /** The state in which the record of a step is appended. */
  function Spilled(s: State, spill: bool): State {
    if spill then FlushedLog(s) else s
  }

  lemma SpilledKeeps(d: Store, s: State, spill: bool)
    requires Inv(d, s)
    ensures Inv(d, Spilled(s, spill))
  {
    FlushLogKeeps(d, s);
  }

  lemma OwnAppend(lg: seq<LogRecord>, r: LogRecord, t: nat)
    ensures Own(lg + [r], t) ==
            if r == Start(t) then map[]
            else if r.IsSet() && r.tx == t then KeepOldest(Own(lg, t), r.Where(), r.OldValue())
            else Own(lg, t)
  {
    assert (lg + [r])[..|lg|] == lg;
  }

  /** A record that is not yet on disk does not change what the disk says. */
  lemma AppendPrefix<T>(a: seq<T>, x: T, n: nat)
    requires n <= |a|
    ensures (a + [x])[..n] == a[..n]
  {}

  /** A record other than an update needs nothing held back. */
  lemma AppendHeld(lg: seq<LogRecord>, r: LogRecord, saved: nat, base: nat, dirty: map<BlockId, Dirty>)
    requires WriteAhead(lg, saved, base, dirty) && !r.IsSet()
    ensures WriteAhead(lg + [r], saved, base, dirty)
  {
    forall k | saved <= k < |lg + [r]| && (lg + [r])[k].IsSet()
      ensures HeldBack((lg + [r])[k].blk, k, base, dirty)
    {
      assert HeldBack(lg[k].blk, k, base, dirty);
    }
  }

  lemma SameFaithful(d: Store, v: Store, lg: seq<LogRecord>, h: seq<Event>, lg': seq<LogRecord>, h': seq<Event>)
    requires Faithful(d, v, lg, h)
    requires Undo(lg') == Undo(lg) && CommittedStore(d, h') == CommittedStore(d, h)
    ensures Faithful(d, v, lg', h')
  {}

  lemma BeginTxs(d: Store, cur: Store, lg: seq<LogRecord>, h: seq<Event>, txs: map<nat, TxPhase>, n: nat)
    requires GoodHistory(d, lg, h) && TxsOk(d, cur, lg, h, txs) && n !in txs && Undo(lg).Keys <= txs.Keys
    requires cur.Keys == d.Keys
    ensures TxsOk(d, cur, lg + [Start(n)], h + [Began(n)], txs[n := Active])
  {
    var lg', h', txs' := lg + [Start(n)], h + [Began(n)], txs[n := Active];
    GoodAppend(d, lg, h, Start(n), Began(n));
    forall t | t in txs'
      ensures TxOk(d, cur, lg', h', txs'[t], t)
    {
      OwnAppend(lg, Start(n), t);
      if t != n {
        UnconcernedTx(d, txs[t], t, cur, lg, h, cur, lg', h');
      }
    }
  }

  /** A new transaction owns nothing. */
  lemma BeginTable(u: UndoMap, txs: map<nat, TxPhase>, owner: map<BlockId, nat>, dirty: map<BlockId, Dirty>, next: nat)
    requires Holders(u, txs, owner) && TxTable(txs, owner, dirty, next)
    ensures next + 1 !in txs
    ensures Holders(u, txs[next + 1 := Active], owner) && TxTable(txs[next + 1 := Active], owner, dirty, next + 1)
    ensures u.Keys <= txs.Keys
  {}

  lemma BeginNowKeeps(d: Store, m: State)
    requires Inv(d, m) && Enabled(m, Begin(false))
    ensures Inv(d, Apply(m, Begin(false)))
  {
    hide Faithful, WriteAhead, TxsOk, DirtyWhereDifferent, GoodHistory, RefOf, Own, UndoList, RollbackList, ApplyUndo,
         Exclusive;
    hide Undo, Holders, TxTable, DirtyOwned;
    var n := m.next + 1;
    BeginTable(Undo(m.log), m.txs, m.owner, m.dirty, m.next);
    GoodAppend(d, m.log, m.hist, Start(n), Began(n));
    AppendPrefix(m.log, Start(n), m.saved);
    AppendPrefix(m.hist, Began(n), m.saved);
    AppendHeld(m.log, Start(n), m.saved, m.base, m.dirty);
    SameFaithful(d, m.cur, m.log, m.hist, m.log + [Start(n)], m.hist + [Began(n)]);
    SameFaithful(d, m.disk, m.log, m.hist, m.log + [Start(n)], m.hist + [Began(n)]);
    BeginTxs(d, m.cur, m.log, m.hist, m.txs, n);
  }

  lemma BeginKeeps(d: Store, s: State, spill: bool)
    requires Inv(d, s) && Enabled(s, Begin(spill))
    ensures Inv(d, Apply(s, Begin(spill)))
  {
    hide Inv;
    SpilledKeeps(d, s, spill);
    BeginNowKeeps(d, Spilled(s, spill));
  }

  // ---------------------------------------------------------------------------------------------
  // Updates
  // ---------------------------------------------------------------------------------------------

  /** The undo map after one more update of `l` by `t`. */
  lemma UpdateCovers(u: UndoMap, r: LogRecord, t: nat, x: Loc)
    requires r.IsSet()
    ensures CoveredBy(UndoStep(u, r), t, x) <==> CoveredBy(u, t, x) || (t == r.tx && x == r.Where())
  {}

  lemma UpdateFaithful(d: Store, v: Store, w: Store, lg: seq<LogRecord>, h: seq<Event>, r: LogRecord, e: Event)
    requires GoodHistory(d, lg, h) && GoodHistory(d, lg + [r], h + [e]) && r.IsSet() && Matches(r, e)
    requires Faithful(d, v, lg, h)
    requires forall x | x in v && x != r.Where() :: x in w && w[x] == v[x]
    ensures Faithful(d, w, lg + [r], h + [e])
  {
    assert (lg + [r])[..|lg|] == lg && (h + [e])[..|h|] == h;
    forall x | x in d && !Covered(Undo(lg + [r]), x)
      ensures x in w && x in CommittedStore(d, h) && w[x] == CommittedStore(d, h)[x]
    {
      UpdateCovers(Undo(lg), r, r.tx, x);
      forall t
        ensures !CoveredBy(Undo(lg), t, x)
      {
        UpdateCovers(Undo(lg), r, t, x);
        assert !CoveredBy(Undo(lg + [r]), t, x);
      }
      assert !CoveredBy(Undo(lg + [r]), r.tx, x);
      assert !Covered(Undo(lg), x);
    }
  }

  lemma UpdateHeld(lg: seq<LogRecord>, r: LogRecord, saved: nat, base: nat, dirty: map<BlockId, Dirty>, t: nat)
    requires WriteAhead(lg, saved, base, dirty) && r.IsSet() && base <= |lg|
    ensures WriteAhead(lg + [r], saved, base, dirty[r.blk := Dirty(t, Some(|lg| + 1 - base))])
  {
    var dirty' := dirty[r.blk := Dirty(t, Some(|lg| + 1 - base))];
    forall k | saved <= k < |lg + [r]| && (lg + [r])[k].IsSet()
      ensures HeldBack((lg + [r])[k].blk, k, base, dirty')
    {
      if k < |lg| {
        assert HeldBack(lg[k].blk, k, base, dirty);
      }
    }
  }

  /** The writer itself: its undo entry has the old value, and its pending values are in memory. */
  lemma WriterOk(d: Store, cur: Store, lg: seq<LogRecord>, h: seq<Event>, t: nat, l: Loc, v: Value)
    requires TxOk(d, cur, lg, h, Active, t) && l in d && cur.Keys == d.Keys
    ensures var r := UpdateRecord(t, l, cur[l]); TxOk(d, cur[l := v], lg + [r], h + [Wrote(t, l, v)], Active, t)
  {
    hide ApplyUndo, UndoList, RollbackList, Exclusive;
    var r := UpdateRecord(t, l, cur[l]);
    var lg', h', cur' := lg + [r], h + [Wrote(t, l, v)], cur[l := v];
    assert lg'[..|lg|] == lg && h'[..|h|] == h;
    OwnAppend(lg, r, t);
    hide Own;
    forall x | CoveredBy(Undo(lg'), t, x)
      ensures HoldsPending(cur', RefOf(d, h'), t, x)
    {
      UpdateCovers(Undo(lg), r, t, x);
      if x != l {
        assert HoldsPending(cur, RefOf(d, h), t, x);
      }
    }
  }

  /** Another transaction. */
  lemma OtherOk(d: Store, cur: Store, lg: seq<LogRecord>, h: seq<Event>, phase: TxPhase, t: nat, l: Loc, v: Value,
                t': nat)
    requires TxOk(d, cur, lg, h, phase, t') && t' != t && l in d && cur.Keys == d.Keys && !CoveredBy(Undo(lg), t', l)
    requires GoodHistory(d, lg, h)
    requires var r := UpdateRecord(t, l, cur[l]); GoodHistory(d, lg + [r], h + [Wrote(t, l, v)])
    ensures var r := UpdateRecord(t, l, cur[l]); TxOk(d, cur[l := v], lg + [r], h + [Wrote(t, l, v)], phase, t')
  {
    hide ApplyUndo, UndoList, RollbackList, Exclusive;
    var r := UpdateRecord(t, l, cur[l]);
    var lg', h', cur' := lg + [r], h + [Wrote(t, l, v)], cur[l := v];
    assert lg'[..|lg|] == lg && h'[..|h|] == h;
    OwnAppend(lg, r, t');
    hide Own, TxOk, GoodHistory;
    UnconcernedTx(d, phase, t', cur, lg, h, cur', lg', h');
  }

  lemma UpdateHolders(lg: seq<LogRecord>, r: LogRecord, txs: map<nat, TxPhase>, owner: map<BlockId, nat>)
    requires Holders(Undo(lg), txs, owner) && r.IsSet() && r.tx in txs && (r.blk in owner ==> owner[r.blk] == r.tx)
    ensures Holders(Undo(lg + [r]), txs, owner[r.blk := r.tx])
  {
    assert (lg + [r])[..|lg|] == lg;
    forall t, x
      ensures CoveredBy(Undo(lg + [r]), t, x) <==> CoveredBy(Undo(lg), t, x) || (t == r.tx && x == r.Where())
    {
      UpdateCovers(Undo(lg), r, t, x);
    }
  }

  lemma UpdateTxs(d: Store, cur: Store, lg: seq<LogRecord>, h: seq<Event>, txs: map<nat, TxPhase>,
                  owner: map<BlockId, nat>, t: nat, l: Loc, v: Value)
    requires TxsOk(d, cur, lg, h, txs) && Holders(Undo(lg), txs, owner)
    requires t in txs && txs[t].Active? && (l.blk in owner ==> owner[l.blk] == t)
    requires l in d && cur.Keys == d.Keys && GoodHistory(d, lg, h)
    requires var r := UpdateRecord(t, l, cur[l]); GoodHistory(d, lg + [r], h + [Wrote(t, l, v)])
    ensures var r := UpdateRecord(t, l, cur[l]);
            && TxsOk(d, cur[l := v], lg + [r], h + [Wrote(t, l, v)], txs)
            && Holders(Undo(lg + [r]), txs, owner[l.blk := t])
  {
    hide TxOk, Undo, Own, GoodHistory;
    var r := UpdateRecord(t, l, cur[l]);
    UpdateHolders(lg, r, txs, owner);
    forall t' | t' in txs
      ensures TxOk(d, cur[l := v], lg + [r], h + [Wrote(t, l, v)], txs[t'], t')
    {
      if t' != t {
        OtherOk(d, cur, lg, h, txs[t'], t, l, v, t');
      } else {
        WriterOk(d, cur, lg, h, t, l, v);
      }
    }
  }

  lemma WriteGood(d: Store, m: State, t: nat, l: Loc, v: Value)
    requires Inv(d, m) && Enabled(m, Write(t, l, v, false))
    ensures var r := UpdateRecord(t, l, m.cur[l]); GoodHistory(d, m.log + [r], m.hist + [Wrote(t, l, v)])
  {
    hide WriteAhead, TxsOk, DirtyWhereDifferent, GoodHistory, Apply, Undo, RefOf, Own, UndoList, RollbackList,
         ApplyUndo, Exclusive;
    forall t' | CoveredBy(Undo(m.log), t', l)
      ensures t' == t
    {
      assert m.owner[l.blk] == t';
    }
    GoodAppend(d, m.log, m.hist, UpdateRecord(t, l, m.cur[l]), Wrote(t, l, v));
  }

  lemma WriteNowKeeps(d: Store, m: State, t: nat, l: Loc, v: Value)
    requires Inv(d, m) && Enabled(m, Write(t, l, v, false))
    ensures Inv(d, Apply(m, Write(t, l, v, false)))
  {
    hide Faithful, WriteAhead, TxsOk, GoodHistory, Holders, Undo, RefOf, Own, UndoList, RollbackList, ApplyUndo,
         Exclusive;
    hide DirtyOwned, TxTable, CommittedStore;
    var r := UpdateRecord(t, l, m.cur[l]);
    WriteGood(d, m, t, l, v);
    AppendPrefix(m.log, r, m.saved);
    AppendPrefix(m.hist, Wrote(t, l, v), m.saved);
    UpdateFaithful(d, m.cur, m.cur[l := v], m.log, m.hist, r, Wrote(t, l, v));
    UpdateFaithful(d, m.disk, m.disk, m.log, m.hist, r, Wrote(t, l, v));
    UpdateHeld(m.log, r, m.saved, m.base, m.dirty, t);
    UpdateTxs(d, m.cur, m.log, m.hist, m.txs, m.owner, t, l, v);
    OwnedTable(Undo(m.log), m.disk, m.cur, m.txs, m.owner, m.dirty, m.next, t, l.blk,
               m.dirty[l.blk := Dirty(t, Some(|m.log| + 1 - m.base))]);
  }

  lemma WriteKeeps(d: Store, s: State, t: nat, l: Loc, v: Value, spill: bool)
    requires Inv(d, s) && Enabled(s, Write(t, l, v, spill))
    ensures Inv(d, Apply(s, Write(t, l, v, spill)))
  {
    hide Inv;
    SpilledKeeps(d, s, spill);
    WriteNowKeeps(d, Spilled(s, spill), t, l, v);
  }

  lemma MarkedHeld(lg: seq<LogRecord>, s: State, b: BlockId, t: nat, stale: Option<nat>)
    requires WriteAhead(lg, s.saved, s.base, s.dirty)
    ensures WriteAhead(lg, s.saved, s.base, Marked(s, b, t, stale))
  {
    forall k | s.saved <= k < |lg| && lg[k].IsSet()
      ensures HeldBack(lg[k].blk, k, s.base, Marked(s, b, t, stale))
    {
      assert HeldBack(lg[k].blk, k, s.base, s.dirty);
    }
  }

  /** A block that an active transaction makes dirty, and owns from then on. */
  lemma OwnedTable(u: UndoMap, disk: Store, cur: Store, txs: map<nat, TxPhase>, owner: map<BlockId, nat>,
                   dirty: map<BlockId, Dirty>, next: nat, t: nat, b: BlockId, dirty': map<BlockId, Dirty>)
    requires Holders(u, txs, owner) && DirtyOwned(dirty, owner) && TxTable(txs, owner, dirty, next)
    requires t in txs && txs[t].Active? && (b in owner ==> owner[b] == t)
    requires b in dirty' && dirty'[b].tx == t && dirty'.Keys == dirty.Keys + {b}
    requires forall x | x in dirty && x != b :: dirty'[x] == dirty[x]
    ensures Holders(u, txs, owner[b := t]) && DirtyOwned(dirty', owner[b := t])
            && TxTable(txs, owner[b := t], dirty', next)
    ensures DirtyWhereDifferent(disk, cur, dirty) ==> DirtyWhereDifferent(disk, cur, dirty')
  {}

  lemma TouchKeeps(d: Store, s: State, t: nat, b: BlockId, stale: Option<nat>)
    requires Inv(d, s) && Enabled(s, Touch(t, b, stale))
    ensures Inv(d, Apply(s, Touch(t, b, stale)))
  {
    hide Faithful, WriteAhead, GoodHistory, TxsOk, Holders, Undo, RefOf, Own, UndoList, RollbackList, Exclusive;
    hide DirtyWhereDifferent, DirtyOwned, TxTable, CommittedStore;
    MarkedHeld(s.log, s, b, t, stale);
    OwnedTable(Undo(s.log), s.disk, s.cur, s.txs, s.owner, s.dirty, s.next, t, b, Marked(s, b, t, stale));
  }

  // ---------------------------------------------------------------------------------------------
  // Commit and rollback
  // ---------------------------------------------------------------------------------------------

  /** Removing `t` from the undo map uncovers exactly what `t` held. */
  lemma FinishCovers(u: UndoMap, t: nat, t': nat, x: Loc)
    ensures CoveredBy(u - {t}, t', x) <==> CoveredBy(u, t', x) && t' != t
  {}

  lemma FinishUncovers(u: UndoMap, t: nat, x: Loc)
    requires !Covered(u - {t}, x)
    ensures CoveredBy(u, t, x) || !Covered(u, x)
  {
    forall t' | t' != t
      ensures !CoveredBy(u, t', x)
    {
      FinishCovers(u, t, t', x);
    }
  }

  /** Commit: the values that `t` wrote become the committed ones. */
  lemma CommitFaithful(d: Store, v: Store, lg: seq<LogRecord>, h: seq<Event>, t: nat)
    requires GoodHistory(d, lg, h) && Faithful(d, v, lg, h)
    requires forall x | CoveredBy(Undo(lg), t, x) :: HoldsPending(v, RefOf(d, h), t, x)
    ensures GoodHistory(d, lg + [Commit(t)], h + [Committed(t)])
    ensures Faithful(d, v, lg + [Commit(t)], h + [Committed(t)])
  {
    GoodAppend(d, lg, h, Commit(t), Committed(t));
    var lg', h' := lg + [Commit(t)], h + [Committed(t)];
    forall x | x in d && !Covered(Undo(lg'), x)
      ensures x in v && x in CommittedStore(d, h') && v[x] == CommittedStore(d, h')[x]
    {
      FinishUncovers(Undo(lg), t, x);
      if CoveredBy(Undo(lg), t, x) {
        assert HoldsPending(v, RefOf(d, h), t, x);
      }
    }
  }

  /** Rollback: once undone, `t` has left no trace. */
  lemma RollbackFaithful(d: Store, v: Store, lg: seq<LogRecord>, h: seq<Event>, t: nat)
    requires GoodHistory(d, lg, h) && Faithful(d, v, lg, h)
    requires forall x | CoveredBy(Undo(lg), t, x) :: Restorable(d, v, h, [], x)
    ensures GoodHistory(d, lg + [Rollback(t)], h + [RolledBack(t)])
    ensures Faithful(d, v, lg + [Rollback(t)], h + [RolledBack(t)])
  {
    GoodAppend(d, lg, h, Rollback(t), RolledBack(t));
    var lg', h' := lg + [Rollback(t)], h + [RolledBack(t)];
    forall x | x in d && !Covered(Undo(lg'), x)
      ensures x in v && x in CommittedStore(d, h') && v[x] == CommittedStore(d, h')[x]
    {
      FinishUncovers(Undo(lg), t, x);
      if CoveredBy(Undo(lg), t, x) {
        assert Restorable(d, v, h, [], x);
      }
    }
  }

  lemma FinishHolders(u: UndoMap, txs: map<nat, TxPhase>, owner: map<BlockId, nat>, t: nat, phase: TxPhase)
    requires Holders(u, txs, owner)
    ensures Holders(u - {t}, txs[t := phase], owner)
  {
    forall t', x
      ensures CoveredBy(u - {t}, t', x) <==> CoveredBy(u, t', x) && t' != t
    {
      FinishCovers(u, t, t', x);
    }
  }

  lemma FinishOther(d: Store, cur: Store, lg: seq<LogRecord>, h: seq<Event>, phase: TxPhase,
                    t: nat, r: LogRecord, e: Event, t': nat)
    requires GoodHistory(d, lg, h) && TxOk(d, cur, lg, h, phase, t') && t' != t && cur.Keys == d.Keys
    requires (r == Commit(t) && e == Committed(t)) || (r == Rollback(t) && e == RolledBack(t))
    requires forall x | CoveredBy(Undo(lg), t', x) :: !CoveredBy(Undo(lg), t, x)
    ensures TxOk(d, cur, lg + [r], h + [e], phase, t')
  {
    hide ApplyUndo, UndoList, RollbackList, Exclusive, Faithful, Undo, RefOf, UndoStep, RefStep, TxOk;
    GoodAppend(d, lg, h, r, e);
    OwnAppend(lg, r, t');
    FinishFrame(d, Undo(lg), RefOf(d, h), t, r, e, t');
    hide Own, Agree;
    UnconcernedTx(d, phase, t', cur, lg, h, cur, lg + [r], h + [e]);
  }

  /** What the record that finishes `t` means for another transaction. */
  lemma FinishFrame(d: Store, u: UndoMap, f: Ref, t: nat, r: LogRecord, e: Event, t': nat)
    requires Agree(d, u, f) && t' != t
    requires (r == Commit(t) && e == Committed(t)) || (r == Rollback(t) && e == RolledBack(t))
    requires forall x | CoveredBy(u, t', x) :: !CoveredBy(u, t, x)
    ensures var u', f' := UndoStep(u, r), RefStep(f, e);
            && (t' in u <==> t' in u') && EntryOf(u, t') == EntryOf(u', t')
            && EntryOf(f'.pending, t') == EntryOf(f.pending, t')
            && forall l | CoveredBy(u, t', l) :: l in d && l in f.db && l in f'.db && f'.db[l] == f.db[l]
  {}

  /** The finish of `t` does not concern the others. */
  lemma FinishTxs(d: Store, cur: Store, lg: seq<LogRecord>, h: seq<Event>, txs: map<nat, TxPhase>,
                  owner: map<BlockId, nat>, t: nat, r: LogRecord, e: Event, phase: TxPhase)
    requires GoodHistory(d, lg, h) && TxsOk(d, cur, lg, h, txs) && Holders(Undo(lg), txs, owner)
    requires cur.Keys == d.Keys && t in txs
    requires (r == Commit(t) && e == Committed(t)) || (r == Rollback(t) && e == RolledBack(t))
    requires phase.Committing? || phase.Aborting?
    ensures TxsOk(d, cur, lg + [r], h + [e], txs[t := phase])
    ensures Holders(Undo(lg + [r]), txs[t := phase], owner)
  {
    hide Undo, GoodHistory, RefOf;
    GoodAppend(d, lg, h, r, e);
    FinishHolders(Undo(lg), txs, owner, t, phase);
    var txs' := txs[t := phase];
    forall t' | t' in txs'
      ensures TxOk(d, cur, lg + [r], h + [e], txs'[t'], t')
    {
      if t' != t {
        hide TxOk;
        FinishOther(d, cur, lg, h, txs[t'], t, r, e, t');
      }
    }
  }

  /** A transaction without dirty buffers has on disk what it has in memory. */
  lemma FlushedAll(d: Store, m: State, t: nat, x: Loc)
    requires Inv(d, m) && InPhase(m, t) && NoDirty(m.dirty, t) && CoveredBy(Undo(m.log), t, x)
    ensures x in m.cur && x in m.disk && m.disk[x] == m.cur[x]
  {
    hide Faithful, WriteAhead, TxsOk, Apply, Undo, RefOf, Own, UndoList, RollbackList, ApplyUndo, Exclusive;
    assert x in d;
    assert m.owner[x.blk] == t;
  }

  /** A transaction without dirty buffers may begin to finish. */
  lemma FinishTable(txs: map<nat, TxPhase>, owner: map<BlockId, nat>, dirty: map<BlockId, Dirty>, next: nat,
                    t: nat, phase: TxPhase)
    requires TxTable(txs, owner, dirty, next) && t in txs && NoDirty(dirty, t)
    ensures TxTable(txs[t := phase], owner, dirty, next)
  {}

  lemma AppendCommitNowKeeps(d: Store, m: State, t: nat)
    requires Inv(d, m) && Enabled(m, AppendCommit(t, false))
    ensures Inv(d, Apply(m, AppendCommit(t, false)))
  {
    hide Faithful, WriteAhead, TxsOk, GoodHistory, Holders, DirtyWhereDifferent, DirtyOwned, TxTable, Undo, RefOf, Own;
    FinishTable(m.txs, m.owner, m.dirty, m.next, t, Committing(|m.log| + 1 - m.base));
    CommitValues(d, m, t);
    CommitFaithful(d, m.cur, m.log, m.hist, t);
    CommitFaithful(d, m.disk, m.log, m.hist, t);
    AppendPrefix(m.log, Commit(t), m.saved);
    AppendPrefix(m.hist, Committed(t), m.saved);
    AppendHeld(m.log, Commit(t), m.saved, m.base, m.dirty);
    FinishTxs(d, m.cur, m.log, m.hist, m.txs, m.owner, t, Commit(t), Committed(t), Committing(|m.log| + 1 - m.base));
  }

  lemma CommitValues(d: Store, m: State, t: nat)
    requires Inv(d, m) && Enabled(m, AppendCommit(t, false))
    ensures forall x | CoveredBy(Undo(m.log), t, x) ::
              HoldsPending(m.cur, RefOf(d, m.hist), t, x) && HoldsPending(m.disk, RefOf(d, m.hist), t, x)
  {
    hide Faithful, WriteAhead, Apply;
    assert TxOk(d, m.cur, m.log, m.hist, m.txs[t], t);
    forall x | CoveredBy(Undo(m.log), t, x)
      ensures HoldsPending(m.cur, RefOf(d, m.hist), t, x) && HoldsPending(m.disk, RefOf(d, m.hist), t, x)
    {
      FlushedAll(d, m, t, x);
    }
  }

  lemma AppendCommitKeeps(d: Store, s: State, t: nat, spill: bool)
    requires Inv(d, s) && Enabled(s, AppendCommit(t, spill))
    ensures Inv(d, Apply(s, AppendCommit(t, spill)))
  {
    hide Inv;
    SpilledKeeps(d, s, spill);
    AppendCommitNowKeeps(d, Spilled(s, spill), t);
  }

  lemma RollbackValues(d: Store, m: State, t: nat)
    requires Inv(d, m) && Enabled(m, AppendRollback(t, false))
    ensures forall x | CoveredBy(Undo(m.log), t, x) ::
              Restorable(d, m.cur, m.hist, [], x) && Restorable(d, m.disk, m.hist, [], x)
  {
    hide Faithful, WriteAhead, Apply;
    assert TxOk(d, m.cur, m.log, m.hist, m.txs[t], t);
    forall x | CoveredBy(Undo(m.log), t, x)
      ensures Restorable(d, m.cur, m.hist, [], x) && Restorable(d, m.disk, m.hist, [], x)
    {
      FlushedAll(d, m, t, x);
      assert Restorable(d, m.cur, m.hist, [], x);
    }
  }

  lemma AppendRollbackNowKeeps(d: Store, m: State, t: nat)
    requires Inv(d, m) && Enabled(m, AppendRollback(t, false))
    ensures Inv(d, Apply(m, AppendRollback(t, false)))
  {
    hide Faithful, WriteAhead, TxsOk, GoodHistory, Holders, DirtyWhereDifferent, DirtyOwned, TxTable, Undo, RefOf, Own;
    FinishTable(m.txs, m.owner, m.dirty, m.next, t, Aborting(|m.log| + 1 - m.base));
    RollbackValues(d, m, t);
    RollbackFaithful(d, m.cur, m.log, m.hist, t);
    RollbackFaithful(d, m.disk, m.log, m.hist, t);
    AppendPrefix(m.log, Rollback(t), m.saved);
    AppendPrefix(m.hist, RolledBack(t), m.saved);
    AppendHeld(m.log, Rollback(t), m.saved, m.base, m.dirty);
    FinishTxs(d, m.cur, m.log, m.hist, m.txs, m.owner, t, Rollback(t), RolledBack(t), Aborting(|m.log| + 1 - m.base));
  }

  lemma AppendRollbackKeeps(d: Store, s: State, t: nat, spill: bool)
    requires Inv(d, s) && Enabled(s, AppendRollback(t, spill))
    ensures Inv(d, Apply(s, AppendRollback(t, spill)))
  {
    hide Inv;
    SpilledKeeps(d, s, spill);
    AppendRollbackNowKeeps(d, Spilled(s, spill), t);
  }

  /** Whatever the flush finds to do: a later append may have sent the record to disk already. */
  lemma EndKeeps(d: Store, s: State, t: nat, lsn: nat)
    requires Inv(d, s) && InPhase(s, t) && (s.txs[t].Committing? || s.txs[t].Aborting?)
    ensures Inv(d, Ended(s, t, lsn))
  {
    hide Faithful, GoodHistory, DirtyWhereDifferent, WriteAhead, TxsOk, Holders, DirtyOwned, TxTable, Undo, Released;
    FlushLogKeeps(d, s);
    EndTxs(d, s.cur, s.log, s.hist, s.txs, t);
    EndTable(Undo(s.log), s.txs, s.owner, s.dirty, s.next, t);
  }

  lemma EndTxs(d: Store, cur: Store, lg: seq<LogRecord>, h: seq<Event>, txs: map<nat, TxPhase>, t: nat)
    requires TxsOk(d, cur, lg, h, txs) && t in txs && (txs[t].Committing? || txs[t].Aborting?)
    ensures TxsOk(d, cur, lg, h, txs - {t}) && t !in Undo(lg)
  {
    assert TxOk(d, cur, lg, h, txs[t], t);
  }

  /** A finishing transaction has no updates and no dirty blocks any more; what it owned is free. */
  lemma EndTable(u: UndoMap, txs: map<nat, TxPhase>, owner: map<BlockId, nat>, dirty: map<BlockId, Dirty>,
                 next: nat, t: nat)
    requires Holders(u, txs, owner) && DirtyOwned(dirty, owner) && TxTable(txs, owner, dirty, next)
    requires t !in u && t in txs && (txs[t].Committing? || txs[t].Aborting?)
    ensures Holders(u, txs - {t}, Released(owner, t)) && DirtyOwned(dirty, Released(owner, t))
    ensures TxTable(txs - {t}, Released(owner, t), dirty, next)
  {}

  lemma StartRollbackKeeps(d: Store, s: State, t: nat)
    requires Inv(d, s) && Enabled(s, StartRollback(t))
    ensures Inv(d, Apply(s, StartRollback(t)))
  {
    hide Faithful, GoodHistory, DirtyWhereDifferent, WriteAhead;
    FlushLogKeeps(d, s);
    StartRollbackTxs(d, s.cur, s.log, s.hist, s.txs, t);
  }

  lemma StartRollbackTxs(d: Store, cur: Store, lg: seq<LogRecord>, h: seq<Event>, txs: map<nat, TxPhase>, t: nat)
    requires GoodHistory(d, lg, h) && TxsOk(d, cur, lg, h, txs) && cur.Keys == d.Keys
    requires t in txs && txs[t].Active?
    ensures TxsOk(d, cur, lg, h, txs[t := RollingBack(RollbackList(lg, t))])
  {
    var todo := RollbackList(lg, t);
    assert TxOk(d, cur, lg, h, Active, t);
    RollbackScanMeaning(lg, t, cur);
    forall k | 0 <= k < |todo| && todo[k].IsSet()
      ensures todo[k].tx == t && CoveredBy(Undo(lg), t, todo[k].Where())
    {
      RollbackListOwn(lg, t, k);
    }
    forall l | CoveredBy(Undo(lg), t, l)
      ensures Restorable(d, cur, h, todo, l)
    {}
  }

  // ---------------------------------------------------------------------------------------------
  // Undo
  // ---------------------------------------------------------------------------------------------

  /** Undoing a covered location leaves the values elsewhere as they are. */
  lemma UndoFaithful(d: Store, cur: Store, lg: seq<LogRecord>, h: seq<Event>, r: LogRecord)
    requires Faithful(d, cur, lg, h) && (r.IsSet() ==> Covered(Undo(lg), r.Where()))
    ensures Faithful(d, UndoOne(r, cur), lg, h)
  {}

  lemma UndoDifferent(disk: Store, s: State, r: LogRecord, t: nat, stale: Option<nat>)
    requires r.IsSet() && s.cur.Keys == disk.Keys
    requires DirtyWhereDifferent(disk, s.cur, s.dirty)
    ensures DirtyWhereDifferent(disk, UndoOne(r, s.cur), Marked(s, r.blk, t, stale))
  {}

  lemma UndoRollbackTxs(d: Store, cur: Store, lg: seq<LogRecord>, h: seq<Event>, txs: map<nat, TxPhase>, t: nat)
    requires GoodHistory(d, lg, h) && TxsOk(d, cur, lg, h, txs) && cur.Keys == d.Keys
    requires t in txs && txs[t].RollingBack? && txs[t].todo != []
    ensures var todo := txs[t].todo;
            TxsOk(d, UndoOne(todo[0], cur), lg, h, txs[t := RollingBack(todo[1..])])
  {
    var todo := txs[t].todo;
    var cur' := UndoOne(todo[0], cur);
    var txs' := txs[t := RollingBack(todo[1..])];
    assert TxOk(d, cur, lg, h, txs[t], t);
    forall t' | t' in txs'
      ensures TxOk(d, cur', lg, h, txs'[t'], t')
    {
      if t' != t {
        forall x | CoveredBy(Undo(lg), t', x)
          ensures todo[0].IsSet() ==> x != todo[0].Where()
        {}
        assert TxOk(d, cur, lg, h, txs[t'], t');
        UnconcernedTx(d, txs[t'], t', cur, lg, h, cur', lg, h);
      } else {
        forall x | CoveredBy(Undo(lg), t, x)
          ensures Restorable(d, cur', h, todo[1..], x)
        {
          assert Restorable(d, cur, h, todo, x);
        }
      }
    }
  }

  /** The next record of a rollback names a location that the transaction still holds. */
  lemma UndoRollbackTarget(d: Store, s: State, t: nat)
    requires Inv(d, s) && InPhase(s, t) && s.txs[t].RollingBack? && s.txs[t].todo != []
    ensures var r := s.txs[t].todo[0];
            r.IsSet() ==> r.tx == t && CoveredBy(Undo(s.log), t, r.Where()) && r.Where() in d
                          && r.blk in s.owner && s.owner[r.blk] == t
  {
    hide Faithful, WriteAhead, DirtyWhereDifferent, Own;
    assert TxOk(d, s.cur, s.log, s.hist, s.txs[t], t);
    UndoTarget(d, s, s.txs[t].todo[0]);
  }

  /** The tables while `t` rolls back; an undone block stays with its owner. */
  lemma RollingTable(u: UndoMap, s: State, t: nat, todo: seq<LogRecord>, b: BlockId, stale: Option<nat>)
    requires Holders(u, s.txs, s.owner) && DirtyOwned(s.dirty, s.owner) && TxTable(s.txs, s.owner, s.dirty, s.next)
    requires t in s.txs
    ensures Holders(u, s.txs[t := RollingBack(todo)], s.owner)
    ensures TxTable(s.txs[t := RollingBack(todo)], s.owner, s.dirty, s.next)
    ensures b in s.owner && s.owner[b] == t ==>
              DirtyOwned(Marked(s, b, t, stale), s.owner)
              && TxTable(s.txs[t := RollingBack(todo)], s.owner, Marked(s, b, t, stale), s.next)
  {}

  lemma UndoRollbackKeeps(d: Store, s: State, t: nat, stale: Option<nat>)
    requires Inv(d, s) && Enabled(s, UndoRollback(t, stale))
    ensures Inv(d, Apply(s, UndoRollback(t, stale)))
  {
    hide Faithful, WriteAhead, GoodHistory, DirtyWhereDifferent, TxsOk, Undo, RefOf, Own, UndoList, RollbackList,
         ApplyUndo, Exclusive;
    hide Holders, DirtyOwned, TxTable, CommittedStore;
    var r := s.txs[t].todo[0];
    UndoRollbackTarget(d, s, t);
    UndoFaithful(d, s.cur, s.log, s.hist, r);
    UndoRollbackTxs(d, s.cur, s.log, s.hist, s.txs, t);
    RollingTable(Undo(s.log), s, t, s.txs[t].todo[1..], if r.IsSet() then r.blk else BlockId([], 0), stale);
    if r.IsSet() {
      UndoDifferent(s.disk, s, r, t, stale);
      MarkedHeld(s.log, s, r.blk, t, stale);
    }
  }

  /** A covered location exists. */
  lemma UndoTarget(d: Store, s: State, r: LogRecord)
    requires GoodHistory(d, s.log, s.hist) && (r.IsSet() ==> CoveredBy(Undo(s.log), r.tx, r.Where()))
    ensures r.IsSet() ==> r.Where() in d
  {}

  // ---------------------------------------------------------------------------------------------
  // Crash and recovery
  // ---------------------------------------------------------------------------------------------

  lemma CrashKeeps(d: Store, s: State)
    requires Inv(d, s) && Enabled(s, Crash)
    ensures Inv(d, Apply(s, Crash))
  {
    hide Faithful;
    GoodPrefix(d, s.log, s.hist, s.saved);
    var lg, h := s.log[..s.saved], s.hist[..s.saved];
    assert lg[..s.saved] == lg && h[..s.saved] == h;
  }

  lemma RestartKeeps(d: Store, s: State, spill: bool)
    requires Inv(d, s) && Enabled(s, Restart(spill))
    ensures Inv(d, Apply(s, Restart(spill)))
  {
    hide Faithful, WriteAhead, GoodHistory, DirtyWhereDifferent, TxsOk, Holders, RefOf, Own, UndoList, RollbackList,
         ApplyUndo, Exclusive;
    SpilledKeeps(d, s, spill);
    var m := Spilled(s, spill);
    GoodAppend(d, m.log, m.hist, Start(1), Began(1));
    AppendPrefix(m.log, Start(1), m.saved);
    AppendPrefix(m.hist, Began(1), m.saved);
    AppendHeld(m.log, Start(1), m.saved, m.base, m.dirty);
    OwnAppend(m.log, Start(1), 1);
    SameFaithful(d, m.cur, m.log, m.hist, m.log + [Start(1)], m.hist + [Began(1)]);
    SameFaithful(d, m.disk, m.log, m.hist, m.log + [Start(1)], m.hist + [Began(1)]);
  }

  /** Recovery's list brings every location of the database back to its committed value. */
  lemma RecoveryRestores(d: Store, cur: Store, lg: seq<LogRecord>, h: seq<Event>, l: Loc)
    requires GoodHistory(d, lg, h) && Faithful(d, cur, lg, h) && l in d
    ensures Restorable(d, cur, h, UndoList(lg, []), l)
  {
    GoodIsExclusive(d, lg, h);
    RecoveryScanMeaning(lg, [], cur, l);
    var w := ApplyUndo(UndoList(lg, []), cur);
    assert Restores(Undo(lg), [], cur, w, l);
    if Covered(Undo(lg), l) {
      var t :| CoveredBy(Undo(lg), t, l);
      assert w[l] == Undo(lg)[t][l];
    } else {
      assert w[l] == cur[l];
    }
  }

  lemma StartRecoveryKeeps(d: Store, s: State)
    requires Inv(d, s) && Enabled(s, StartRecovery)
    ensures Inv(d, Apply(s, StartRecovery))
  {
    hide Faithful, WriteAhead, GoodHistory, DirtyWhereDifferent;
    FlushLogKeeps(d, s);
    var todo := UndoList(s.log, []);
    forall k | 0 <= k < |todo| && todo[k].IsSet()
      ensures CoveredBy(Undo(s.log), todo[k].tx, todo[k].Where())
    {
      UndoListCovered(s.log, [], k);
    }
    forall l | l in d
      ensures Restorable(d, s.cur, s.hist, todo, l)
    {
      RecoveryRestores(d, s.cur, s.log, s.hist, l);
    }
  }

  lemma UndoRecoveryKeeps(d: Store, s: State, stale: Option<nat>)
    requires Inv(d, s) && Enabled(s, UndoRecovery(stale))
    ensures Inv(d, Apply(s, UndoRecovery(stale)))
  {
    hide Faithful, WriteAhead, GoodHistory, DirtyWhereDifferent, TxsOk, Undo, RefOf, Own, UndoList, RollbackList,
         Exclusive;
    var todo := s.mode.todo;
    var r := todo[0];
    UndoTarget(d, s, r);
    UndoFaithful(d, s.cur, s.log, s.hist, r);
    if r.IsSet() {
      UndoDifferent(s.disk, s, r, s.next, stale);
      MarkedHeld(s.log, s, r.blk, s.next, stale);
    }
    forall l | l in d
      ensures Restorable(d, UndoOne(r, s.cur), s.hist, todo[1..], l)
    {
      assert Restorable(d, s.cur, s.hist, todo, l);
    }
  }

  lemma CheckpointFaithful(d: Store, v: Store, lg: seq<LogRecord>, h: seq<Event>)
    requires GoodHistory(d, lg, h) && (forall l | l in d :: Restorable(d, v, h, [], l))
    ensures GoodHistory(d, lg + [Checkpoint], h + [Recovered])
    ensures Undo(lg + [Checkpoint]) == map[]
    ensures Faithful(d, v, lg + [Checkpoint], h + [Recovered])
  {
    GoodAppend(d, lg, h, Checkpoint, Recovered);
    forall l | l in d
      ensures l in v && l in CommittedStore(d, h) && v[l] == CommittedStore(d, h)[l]
    {
      assert Restorable(d, v, h, [], l);
    }
  }

  /** At the end of recovery the recovering transaction has nothing left to flush. */
  lemma AllFlushed(d: Store, m: State)
    requires Inv(d, m) && Enabled(m, AppendCheckpoint(false))
    ensures m.dirty == map[] && m.disk == m.cur
  {
    hide Faithful, WriteAhead, GoodHistory, TxsOk, Holders, Undo, RefOf, UndoList, RollbackList, Exclusive, Restorable;
    assert m.dirty == map[];
    assert m.disk.Keys == m.cur.Keys;
  }

  lemma AppendCheckpointNowKeeps(d: Store, m: State)
    requires Inv(d, m) && Enabled(m, AppendCheckpoint(false))
    ensures Inv(d, Apply(m, AppendCheckpoint(false)))
  {
    hide Faithful, WriteAhead, GoodHistory, TxsOk, Holders, RefOf, UndoList, RollbackList, Exclusive, Undo, Own,
         ApplyUndo;
    AllFlushed(d, m);
    CheckpointFaithful(d, m.cur, m.log, m.hist);
    AppendPrefix(m.log, Checkpoint, m.saved);
    AppendPrefix(m.hist, Recovered, m.saved);
    AppendHeld(m.log, Checkpoint, m.saved, m.base, m.dirty);
    OwnAppend(m.log, Checkpoint, m.next);
  }

  lemma AppendCheckpointKeeps(d: Store, s: State, spill: bool)
    requires Inv(d, s) && Enabled(s, AppendCheckpoint(spill))
    ensures Inv(d, Apply(s, AppendCheckpoint(spill)))
  {
    hide Inv;
    SpilledKeeps(d, s, spill);
    AppendCheckpointNowKeeps(d, Spilled(s, spill));
  }

  lemma EndRecoveryKeeps(d: Store, s: State)
    requires Inv(d, s) && Enabled(s, EndRecovery)
    ensures Inv(d, Apply(s, EndRecovery))
  {
    hide Faithful, GoodHistory;
    FlushLogKeeps(d, s);
  }

  // ---------------------------------------------------------------------------------------------

  lemma StepKeeps(d: Store, s: State, step: Step)
    requires Inv(d, s) && Enabled(s, step)
    ensures Inv(d, Apply(s, step))
  {
    hide Inv;
    match step
    case Begin(spill) => BeginKeeps(d, s, spill);
    case Write(t, l, v, spill) => WriteKeeps(d, s, t, l, v, spill);
    case Touch(t, b, stale) => TouchKeeps(d, s, t, b, stale);
    case FlushBlock(b) => FlushBlockKeeps(d, s, b);
    case FlushLog => FlushLogKeeps(d, s);
    case AppendCommit(t, spill) => AppendCommitKeeps(d, s, t, spill);
    case EndCommit(t) => EndKeeps(d, s, t, s.txs[t].lsn);
    case StartRollback(t) => StartRollbackKeeps(d, s, t);
    case UndoRollback(t, stale) => UndoRollbackKeeps(d, s, t, stale);
    case AppendRollback(t, spill) => AppendRollbackKeeps(d, s, t, spill);
    case EndRollback(t) => EndKeeps(d, s, t, s.txs[t].lsn);
    case Crash => CrashKeeps(d, s);
    case Restart(spill) => RestartKeeps(d, s, spill);
    case StartRecovery => StartRecoveryKeeps(d, s);
    case UndoRecovery(stale) => UndoRecoveryKeeps(d, s, stale);
    case AppendCheckpoint(spill) => AppendCheckpointKeeps(d, s, spill);
    case EndRecovery => EndRecoveryKeeps(d, s);
  }
}

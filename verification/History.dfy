/**
 The reference against which recovery is judged: what a store of atomic transactions holds after a
 history of transaction events, with no log, no buffers and no undo.
 */
module History {
  import opened Types
  import opened LogMeaning

  datatype Event =
    | Began(tx: nat)
    | Wrote(tx: nat, loc: Loc, val: Value)
    | Committed(tx: nat)
    | RolledBack(tx: nat)
    | Recovered

  /** `db` is the committed store; `pending` holds what each unfinished transaction has written. */
  datatype Ref = Ref(db: Store, pending: map<nat, Store>)

  function RefStep(r: Ref, e: Event): Ref {
    match e
    case Began(_) => r
    case Wrote(t, l, v) => r.(pending := r.pending[t := EntryOf(r.pending, t)[l := v]])
    case Committed(t) => Ref(r.db + EntryOf(r.pending, t), r.pending - {t})
    case RolledBack(t) => r.(pending := r.pending - {t})
    case Recovered => r.(pending := map[])
  }

  function RefOf(init: Store, h: seq<Event>): Ref {
    if h == [] then Ref(init, map[]) else RefStep(RefOf(init, h[..|h| - 1]), h[|h| - 1])
  }

  /** The store that the committed transactions of `h` leave, starting from `init`. */
  function CommittedStore(init: Store, h: seq<Event>): Store {
    RefOf(init, h).db
  }

  /** Each log record stands for one event. */
  predicate Matches(r: LogRecord, e: Event) {
    match r
    case Start(t) => e == Began(t)
    case Commit(t) => e == Committed(t)
    case Rollback(t) => e == RolledBack(t)
    case Checkpoint => e == Recovered
    case _ => e.Wrote? && e.tx == r.tx && e.loc == r.Where()
  }

  /** The old values in the undo map are the committed values, for exactly the pending locations. */
  ghost predicate Agree(init: Store, u: UndoMap, r: Ref) {
    && Disjoint(u)
    && r.db.Keys == init.Keys
    && u.Keys == r.pending.Keys
    && (forall t | t in u :: u[t].Keys == r.pending[t].Keys)
    && (forall t, l | CoveredBy(u, t, l) :: l in init && u[t][l] == r.db[l])
  }

  /** Log and history correspond, and agree after every prefix. */
  ghost predicate GoodHistory(init: Store, lg: seq<LogRecord>, h: seq<Event>) {
    && |lg| == |h|
    && Agree(init, Undo(lg), RefOf(init, h))
    && (lg == [] || (Matches(lg[|lg| - 1], h[|h| - 1]) && GoodHistory(init, lg[..|lg| - 1], h[..|h| - 1])))
  }

  lemma {:induction false} GoodPrefix(init: Store, lg: seq<LogRecord>, h: seq<Event>, n: nat)
    requires GoodHistory(init, lg, h) && n <= |lg|
    ensures GoodHistory(init, lg[..n], h[..n])
  {
    if n == |lg| {
      assert lg[..n] == lg && h[..n] == h;
    } else {
      GoodPrefix(init, lg[..|lg| - 1], h[..|h| - 1], n);
      assert lg[..|lg| - 1][..n] == lg[..n] && h[..|h| - 1][..n] == h[..n];
    }
  }

  lemma {:induction false} GoodIsExclusive(init: Store, lg: seq<LogRecord>, h: seq<Event>)
    requires GoodHistory(init, lg, h)
    ensures Exclusive(lg)
  {
    if lg != [] {
      GoodIsExclusive(init, lg[..|lg| - 1], h[..|h| - 1]);
    }
  }

  /** One more record keeps the correspondence; an update must carry the committed value it replaces. */
  lemma GoodAppend(init: Store, lg: seq<LogRecord>, h: seq<Event>, r: LogRecord, e: Event)
    requires GoodHistory(init, lg, h) && Matches(r, e)
    requires r.IsSet() ==>
               && r.Where() in init
               && (forall t | CoveredBy(Undo(lg), t, r.Where()) :: t == r.tx)
               && (!Covered(Undo(lg), r.Where()) ==> r.OldValue() == RefOf(init, h).db[r.Where()])
    ensures GoodHistory(init, lg + [r], h + [e])
    ensures Undo(lg + [r]) == UndoStep(Undo(lg), r)
    ensures RefOf(init, h + [e]) == RefStep(RefOf(init, h), e)
  {
    hide Agree, UndoStep, RefStep;
    assert (lg + [r])[..|lg|] == lg && (h + [e])[..|h|] == h;
    AgreeStep(init, Undo(lg), RefOf(init, h), r, e);
  }

  lemma AgreeCommit(init: Store, u: UndoMap, f: Ref, t: nat)
    requires Agree(init, u, f)
    ensures Agree(init, UndoStep(u, Commit(t)), RefStep(f, Committed(t)))
  {
    var u', f' := UndoStep(u, Commit(t)), RefStep(f, Committed(t));
    forall t', l | CoveredBy(u', t', l)
      ensures CoveredBy(u, t', l) && t' != t
    {}
    forall t': nat, l | CoveredBy(u', t', l)
      ensures u'[t'][l] == f'.db[l]
    {
      assert !CoveredBy(u, t, l);
    }
    forall l | l in EntryOf(f.pending, t)
      ensures l in init
    {
      assert CoveredBy(u, t, l);
    }
    assert f'.db.Keys == init.Keys;
  }

  lemma AgreeUpdate(init: Store, u: UndoMap, f: Ref, r: LogRecord, e: Event)
    requires Agree(init, u, f) && Matches(r, e) && r.IsSet() && r.Where() in init
    requires forall t | CoveredBy(u, t, r.Where()) :: t == r.tx
    requires !Covered(u, r.Where()) ==> r.OldValue() == f.db[r.Where()]
    ensures Agree(init, UndoStep(u, r), RefStep(f, e))
  {
    var u' := UndoStep(u, r);
    forall t, l | CoveredBy(u', t, l)
      ensures CoveredBy(u, t, l) || (t == r.tx && l == r.Where())
    {}
    assert u'[r.tx].Keys == EntryOf(u, r.tx).Keys + {r.Where()};
    if l :| l == r.Where() && !CoveredBy(u, r.tx, l) {
      assert !Covered(u, l);
    }
  }

  lemma AgreeStep(init: Store, u: UndoMap, f: Ref, r: LogRecord, e: Event)
    requires Agree(init, u, f) && Matches(r, e)
    requires r.IsSet() ==>
               && r.Where() in init
               && (forall t | CoveredBy(u, t, r.Where()) :: t == r.tx)
               && (!Covered(u, r.Where()) ==> r.OldValue() == f.db[r.Where()])
    ensures Agree(init, UndoStep(u, r), RefStep(f, e))
  {
    if r.Commit? {
      AgreeCommit(init, u, f, r.tx);
    } else if r.IsSet() {
      AgreeUpdate(init, u, f, r, e);
    } else {
      forall t, l | CoveredBy(UndoStep(u, r), t, l)
        ensures CoveredBy(u, t, l)
      {}
    }
  }

  /**
   While no update of `l` is logged, a location that no unfinished transaction holds stays so,
   and its committed value stays the same.
   */
  lemma {:induction false} QuietSuffix(init: Store, lg: seq<LogRecord>, h: seq<Event>, n: nat, l: Loc)
    requires GoodHistory(init, lg, h) && n <= |lg| && l in init
    requires forall k | n <= k < |lg| && lg[k].IsSet() :: lg[k].Where() != l
    requires !Covered(Undo(lg[..n]), l)
    ensures !Covered(Undo(lg), l)
    ensures l in RefOf(init, h).db && l in RefOf(init, h[..n]).db
    ensures RefOf(init, h).db[l] == RefOf(init, h[..n]).db[l]
  {
    GoodPrefix(init, lg, h, n);
    if n == |lg| {
      assert lg[..n] == lg && h[..n] == h;
    } else {
      var older, olderH := lg[..|lg| - 1], h[..|h| - 1];
      assert older[..n] == lg[..n] && olderH[..n] == h[..n];
      QuietSuffix(init, older, olderH, n, l);
      var r := lg[|lg| - 1];
      forall t
        ensures !CoveredBy(Undo(lg), t, l)
      {
        assert !CoveredBy(Undo(older), t, l);
      }
      if r.Commit? {
        assert !CoveredBy(Undo(older), r.tx, l);
      }
    }
  }
}

/**
 What a log means. `Undo` reads the log forwards and says which old values an undo must restore;
 `UndoList` and `RollbackList` are the backward scans of `Transaction::do_recover` and
 `Transaction::do_rollback`. The lemmas say that applying a scan's list, newest record first,
 restores exactly what the forward reading says.
 */
module LogMeaning {
  import opened Types

  /** Per unfinished transaction, the oldest logged value of each location it has updated. */
  type UndoMap = map<nat, Store>

  predicate CoveredBy(u: UndoMap, t: nat, l: Loc) {
    t in u && l in u[t]
  }

  ghost predicate Covered(u: UndoMap, l: Loc) {
    exists t :: CoveredBy(u, t, l)
  }

  /** No location is held by two unfinished transactions. */
  ghost predicate Disjoint(u: UndoMap) {
    forall t, t', l :: CoveredBy(u, t, l) && CoveredBy(u, t', l) ==> t == t'
  }

  /** `l := v` in the entry of `t`, unless `t` has already an older value there. */
  function KeepOldest(s: Store, l: Loc, v: Value): Store {
    if l in s then s else s[l := v]
  }

  function EntryOf(u: UndoMap, t: nat): Store {
    if t in u then u[t] else map[]
  }

  function UndoStep(u: UndoMap, r: LogRecord): UndoMap {
    match r
    case Start(_) => u
    case Commit(t) => u - {t}
    case Rollback(t) => u - {t}
    case Checkpoint => map[]
    case _ => u[r.tx := KeepOldest(EntryOf(u, r.tx), r.Where(), r.OldValue())]
  }

  function Undo(lg: seq<LogRecord>): UndoMap {
    if lg == [] then map[] else UndoStep(Undo(lg[..|lg| - 1]), lg[|lg| - 1])
  }

  /** The oldest values logged by `t` since its latest START record. */
  function Own(lg: seq<LogRecord>, t: nat): Store {
    if lg == [] then map[]
    else
      var older := Own(lg[..|lg| - 1], t);
      var r := lg[|lg| - 1];
      if r == Start(t) then map[]
      else if r.IsSet() && r.tx == t then KeepOldest(older, r.Where(), r.OldValue())
      else older
  }

  /** The backward scan of recovery: `fin` lists the transactions found finished so far. */
  function UndoList(lg: seq<LogRecord>, fin: seq<nat>): seq<LogRecord> {
    if lg == [] then []
    else
      var r, older := lg[|lg| - 1], lg[..|lg| - 1];
      match r
      case Checkpoint => []
      case Commit(t) => UndoList(older, fin + [t])
      case Rollback(t) => UndoList(older, fin + [t])
      case _ => if r.tx in fin then UndoList(older, fin) else [r] + UndoList(older, fin)
  }

  /** The backward scan of a rollback of `t`, which stops at the START record of `t`. */
  function RollbackList(lg: seq<LogRecord>, t: nat): seq<LogRecord> {
    if lg == [] then []
    else
      var r, older := lg[|lg| - 1], lg[..|lg| - 1];
      if r == Start(t) then []
      else if !r.Checkpoint? && r.tx == t then [r] + RollbackList(older, t)
      else RollbackList(older, t)
  }

  function UndoOne(r: LogRecord, v: Store): Store {
    if r.IsSet() then v[r.Where() := r.OldValue()] else v
  }

  /** Undoing the records of `todo` in order. */
  function ApplyUndo(todo: seq<LogRecord>, v: Store): Store {
    if todo == [] then v else ApplyUndo(todo[1..], UndoOne(todo[0], v))
  }

  /** Every prefix of the log has disjoint undo sets: unfinished transactions never shared a location. */
  ghost predicate Exclusive(lg: seq<LogRecord>) {
    Disjoint(Undo(lg)) && (lg == [] || Exclusive(lg[..|lg| - 1]))
  }

  /**
   `w` is `v` with every unfinished update at `l` undone: `l` holds the oldest value logged there by a
   transaction outside `fin`, or is as in `v` when there is none.
   */
  ghost predicate Restores(u: UndoMap, fin: seq<nat>, v: Store, w: Store, l: Loc) {
    && (forall t | CoveredBy(u, t, l) && t !in fin :: l in w && w[l] == u[t][l])
    && ((forall t | CoveredBy(u, t, l) :: t in fin) ==> (l in w <==> l in v) && (l in v ==> w[l] == v[l]))
  }

  lemma RestoresFinished(u: UndoMap, t: nat, fin: seq<nat>, v: Store, w: Store, l: Loc)
    requires Restores(u, fin + [t], v, w, l)
    ensures Restores(u - {t}, fin, v, w, l)
  {
    var u' := u - {t};
    forall x
      ensures CoveredBy(u', x, l) <==> CoveredBy(u, x, l) && x != t
    {}
    if forall x | CoveredBy(u', x, l) :: x in fin {
      forall x | CoveredBy(u, x, l)
        ensures x in fin + [t]
      {
        assert x != t ==> CoveredBy(u', x, l);
      }
    }
  }

  lemma RestoresUpdate(u: UndoMap, r: LogRecord, fin: seq<nat>, v: Store, w: Store, l: Loc)
    requires r.IsSet() && Disjoint(UndoStep(u, r))
    requires if r.tx in fin then Restores(u, fin, v, w, l) else Restores(u, fin, UndoOne(r, v), w, l)
    ensures Restores(UndoStep(u, r), fin, v, w, l)
  {
    var u' := UndoStep(u, r);
    forall x
      ensures CoveredBy(u, x, l) ==> CoveredBy(u', x, l) && u'[x][l] == u[x][l]
      ensures CoveredBy(u', x, l) ==> CoveredBy(u, x, l) || (x == r.tx && l == r.Where())
    {}
    if r.Where() == l {
      assert CoveredBy(u', r.tx, l);
    }
  }

  /** The scan of recovery restores, at every location, the oldest value of the unfinished writer. */
  lemma {:induction false} RecoveryScanMeaning(lg: seq<LogRecord>, fin: seq<nat>, v: Store, l: Loc)
    requires Exclusive(lg)
    ensures Restores(Undo(lg), fin, v, ApplyUndo(UndoList(lg, fin), v), l)
  {
    if lg != [] {
      var r, older := lg[|lg| - 1], lg[..|lg| - 1];
      var w := ApplyUndo(UndoList(lg, fin), v);
      match r
      case Checkpoint =>
      case Commit(t) =>
        RecoveryScanMeaning(older, fin + [t], v, l);
        RestoresFinished(Undo(older), t, fin, v, w, l);
      case Rollback(t) =>
        RecoveryScanMeaning(older, fin + [t], v, l);
        RestoresFinished(Undo(older), t, fin, v, w, l);
      case _ =>
        if r.tx in fin {
          RecoveryScanMeaning(older, fin, v, l);
        } else {
          RecoveryScanMeaning(older, fin, UndoOne(r, v), l);
          assert ([r] + UndoList(older, fin))[1..] == UndoList(older, fin);
        }
        if r.IsSet() {
          RestoresUpdate(Undo(older), r, fin, v, w, l);
        }
    }
  }

  /** The scan of a rollback restores the values `t` found, and touches nothing else. */
  lemma {:induction false} RollbackScanMeaning(lg: seq<LogRecord>, t: nat, v: Store)
    ensures ApplyUndo(RollbackList(lg, t), v) == v + Own(lg, t)
  {
    if lg != [] {
      var r, older := lg[|lg| - 1], lg[..|lg| - 1];
      if r != Start(t) && !r.Checkpoint? && r.tx == t {
        RollbackScanMeaning(older, t, UndoOne(r, v));
        assert ([r] + RollbackList(older, t))[1..] == RollbackList(older, t);
      } else if r != Start(t) {
        RollbackScanMeaning(older, t, v);
      }
    }
  }

  /** Undoing a list writes no location that its records do not name. */
  lemma {:induction false} UndoFrame(todo: seq<LogRecord>, v: Store, l: Loc)
    requires forall k | 0 <= k < |todo| && todo[k].IsSet() :: todo[k].Where() != l
    ensures var w := ApplyUndo(todo, v); (l in w <==> l in v) && (l in v ==> w[l] == v[l])
  {
    if todo != [] {
      UndoFrame(todo[1..], UndoOne(todo[0], v), l);
    }
  }

  /** Every update on recovery's list belongs to a transaction that is unfinished in the log. */
  lemma {:induction false} UndoListCovered(lg: seq<LogRecord>, fin: seq<nat>, k: nat)
    requires k < |UndoList(lg, fin)| && UndoList(lg, fin)[k].IsSet()
    ensures var r := UndoList(lg, fin)[k]; r.tx !in fin && CoveredBy(Undo(lg), r.tx, r.Where())
  {
    if lg != [] {
      var r, older := lg[|lg| - 1], lg[..|lg| - 1];
      match r
      case Checkpoint =>
      case Commit(t) => UndoListCovered(older, fin + [t], k);
      case Rollback(t) => UndoListCovered(older, fin + [t], k);
      case _ =>
        var shift := if r.tx in fin then 0 else 1;
        if k >= shift {
          UndoListCovered(older, fin, k - shift);
        }
    }
  }

  /** Every update on a rollback's list was logged by `t` since its START record. */
  lemma {:induction false} RollbackListOwn(lg: seq<LogRecord>, t: nat, k: nat)
    requires k < |RollbackList(lg, t)|
    ensures var r := RollbackList(lg, t)[k];
            !r.Checkpoint? && r.tx == t && (r.IsSet() ==> r.Where() in Own(lg, t))
  {
    var r, older := lg[|lg| - 1], lg[..|lg| - 1];
    var shift := if !r.Checkpoint? && r.tx == t then 1 else 0;
    if r != Start(t) && k >= shift {
      RollbackListOwn(older, t, k - shift);
    }
  }
}

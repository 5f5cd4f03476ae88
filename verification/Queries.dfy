/**
 Expressions, terms, predicates and query plans, and what they mean.
 */
module Queries {
  import opened Types
  import opened Sequences
  import opened Ordering

  datatype Expression = Const(val: Value) | Field(name: Str)
  {
    /** `evaluate`: nothing where the scan has no such field and the source throws. */
    function Evaluate(r: Row): Option<Value> {
      match this
      case Const(v) => Some(v)
      case Field(f) => if f in r then Some(r[f]) else None
    }

    predicate AppliesTo(sch: seq<Str>) {
      Const? || name in sch
    }
  }

  datatype Term = Term(lhs: Expression, rhs: Expression)
  {
    predicate Defined(r: Row) {
      lhs.Evaluate(r).Some? && rhs.Evaluate(r).Some?
    }

    predicate IsSatisfied(r: Row) {
      Defined(r) && lhs.Evaluate(r) == rhs.Evaluate(r)
    }

    predicate AppliesTo(sch: seq<Str>) {
      lhs.AppliesTo(sch) && rhs.AppliesTo(sch)
    }
  }

  /** A conjunction of terms. */
  type Pred = seq<Term>

  predicate Satisfied(pred: Pred, r: Row) {
    forall t | t in pred :: t.IsSatisfied(r)
  }

  // ---------------------------------------------------------------------------------------------
  // What an expression stands for
  // ---------------------------------------------------------------------------------------------

  /** A constant stands for itself, a field for its value in the row. */
  ghost predicate StandsFor(e: Expression, r: Row, v: Value) {
    || (e.Const? && e.val == v)
    || (e.Field? && e.name in r && r[e.name] == v)
  }

  /** Both sides of the term stand for the same value. */
  ghost predicate Agrees(t: Term, r: Row) {
    exists v :: StandsFor(t.lhs, r, v) && StandsFor(t.rhs, r, v)
  }

  /** They stand for different values. */
  ghost predicate Differs(t: Term, r: Row) {
    exists v, w :: StandsFor(t.lhs, r, v) && StandsFor(t.rhs, r, w) && v != w
  }

  lemma EvaluateMeaning(e: Expression, r: Row, v: Value)
    ensures e.Evaluate(r) == Some(v) <==> StandsFor(e, r, v)
  {}

  /** A term holds if its sides agree, fails if they differ, and has no value if one of them stands for nothing. */
  lemma TermMeaning(t: Term, r: Row)
    ensures t.IsSatisfied(r) <==> Agrees(t, r)
    ensures t.Defined(r) && !t.IsSatisfied(r) <==> Differs(t, r)
    ensures !t.Defined(r) <==> !Agrees(t, r) && !Differs(t, r)
  {
    if t.Defined(r) {
      var v, w := t.lhs.Evaluate(r).value, t.rhs.Evaluate(r).value;
      assert StandsFor(t.lhs, r, v) && StandsFor(t.rhs, r, w);
    }
  }

  lemma SatisfiedMeaning(pred: Pred, r: Row)
    ensures Satisfied(pred, r) <==> forall t | t in pred :: Agrees(t, r)
  {
    hide Agrees;
    forall t | t in pred
      ensures t.IsSatisfied(r) <==> Agrees(t, r)
    {
      TermMeaning(t, r);
    }
  }

  /** The terms that apply to a schema, in their order. */
  function Applicable(pred: Pred, sch: seq<Str>): Pred {
    if pred == [] then []
    else
      var n := |pred| - 1;
      Applicable(pred[..n], sch) + if pred[n].AppliesTo(sch) then [pred[n]] else []
  }

  /** The terms that need both schemas. */
  function Joining(pred: Pred, sch1: seq<Str>, sch2: seq<Str>): Pred {
    if pred == [] then []
    else
      var n := |pred| - 1;
      Joining(pred[..n], sch1, sch2) + if Joins(pred[n], sch1, sch2) then [pred[n]] else []
  }

  predicate Joins(t: Term, sch1: seq<Str>, sch2: seq<Str>) {
    !t.AppliesTo(sch1) && !t.AppliesTo(sch2) && t.AppliesTo(sch1 + sch2)
  }

  function NonEmpty(pred: Pred): Option<Pred> {
    if pred == [] then None else Some(pred)
  }

  /** All terms in front of `k` are satisfied, and term `k` is not. */
  predicate StopsAt(pred: Pred, r: Row, k: nat) {
    k < |pred| && !pred[k].IsSatisfied(r) && forall m | 0 <= m < k :: pred[m].IsSatisfied(r)
  }

  /** The first term that does not hold differs, or one of its sides stands for nothing. */
  lemma PredMeaning(pred: Pred, r: Row)
    ensures Satisfied(pred, r) <==> forall t | t in pred :: Agrees(t, r)
    ensures (exists k: nat :: StopsAt(pred, r, k) && pred[k].Defined(r)) <==>
            exists k: nat :: k < |pred| && Differs(pred[k], r) && forall m | 0 <= m < k :: Agrees(pred[m], r)
  {
    SatisfiedMeaning(pred, r);
    hide Agrees, Differs;
    forall k: nat | k < |pred|
      ensures pred[k].IsSatisfied(r) <==> Agrees(pred[k], r)
      ensures pred[k].Defined(r) && !pred[k].IsSatisfied(r) <==> Differs(pred[k], r)
    {
      TermMeaning(pred[k], r);
    }
    if k: nat :| StopsAt(pred, r, k) && pred[k].Defined(r) {
      assert Differs(pred[k], r) && forall m | 0 <= m < k :: Agrees(pred[m], r);
    }
    if k: nat :| k < |pred| && Differs(pred[k], r) && forall m | 0 <= m < k :: Agrees(pred[m], r) {
      assert StopsAt(pred, r, k);
    }
  }

  /** `Predicate::is_satisfied`; nothing where the source throws, at a term whose field the row does not have. */
  method IsSatisfied(pred: Pred, r: Row) returns (ok: Option<bool>)
    ensures ok == Some(true) <==> Satisfied(pred, r)
    ensures ok == Some(false) <==> exists k: nat :: StopsAt(pred, r, k) && pred[k].Defined(r)
    ensures ok == None <==> exists k: nat :: StopsAt(pred, r, k) && !pred[k].Defined(r)
    ensures ok == Some(true) <==> forall t | t in pred :: Agrees(t, r)
    ensures ok == Some(false) <==>
            exists k: nat :: k < |pred| && Differs(pred[k], r) && forall m | 0 <= m < k :: Agrees(pred[m], r)
  {
    PredMeaning(pred, r);
    hide Agrees, Differs;
    for k := 0 to |pred|
      invariant forall m | 0 <= m < k :: pred[m].IsSatisfied(r)
    {
      var lhsval, rhsval := pred[k].lhs.Evaluate(r), pred[k].rhs.Evaluate(r);
      if lhsval.None? || rhsval.None? {
        assert StopsAt(pred, r, k) && forall j: nat | StopsAt(pred, r, j) :: j == k;
        return None;
      }
      if lhsval != rhsval {
        assert StopsAt(pred, r, k) && forall j: nat | StopsAt(pred, r, j) :: j == k;
        return Some(false);
      }
    }
    ok := Some(true);
  }

  method SelectSubPred(pred: Pred, sch: seq<Str>) returns (sub: Option<Pred>)
    ensures sub == NonEmpty(Applicable(pred, sch))
  {
    var result: Pred := [];
    for k := 0 to |pred|
      invariant result == Applicable(pred[..k], sch)
    {
      assert pred[..k + 1][..k] == pred[..k];
      if pred[k].AppliesTo(sch) {
        result := result + [pred[k]];
      }
    }
    assert pred[..|pred|] == pred;
    sub := if result == [] then None else Some(result);
  }

  method JoinSubPred(pred: Pred, sch1: seq<Str>, sch2: seq<Str>) returns (sub: Option<Pred>)
    ensures sub == NonEmpty(Joining(pred, sch1, sch2))
  {
    var result: Pred := [];
    var newsch := sch1 + sch2;
    for k := 0 to |pred|
      invariant result == Joining(pred[..k], sch1, sch2)
    {
      assert pred[..k + 1][..k] == pred[..k];
      var t := pred[k];
      if !t.AppliesTo(sch1) && !t.AppliesTo(sch2) && t.AppliesTo(newsch) {
        result := result + [t];
      }
    }
    assert pred[..|pred|] == pred;
    sub := if result == [] then None else Some(result);
  }

  lemma {:induction false} ApplicableMembers(pred: Pred, sch: seq<Str>)
    ensures forall t :: t in Applicable(pred, sch) <==> t in pred && t.AppliesTo(sch)
  {
    if pred != [] {
      ApplicableMembers(pred[..|pred| - 1], sch);
      assert pred == pred[..|pred| - 1] + [pred[|pred| - 1]];
    }
  }

  lemma {:induction false} JoiningMembers(pred: Pred, sch1: seq<Str>, sch2: seq<Str>)
    ensures forall t :: t in Joining(pred, sch1, sch2) <==> t in pred && Joins(t, sch1, sch2)
  {
    if pred != [] {
      JoiningMembers(pred[..|pred| - 1], sch1, sch2);
      assert pred == pred[..|pred| - 1] + [pred[|pred| - 1]];
    }
  }

  datatype QueryData = QueryData(fields: seq<Str>, tables: seq<Str>, pred: Pred)

  // ---------------------------------------------------------------------------------------------
  // Plans
  // ---------------------------------------------------------------------------------------------

  datatype Table = Table(fields: seq<Str>, rows: seq<Row>)

  type Database = map<Str, Table>

  datatype Plan =
    | TablePlan(table: Str)
    | SelectPlan(p: Plan, pred: Pred)
    | ProductPlan(p1: Plan, p2: Plan)
    | ProjectPlan(p: Plan, fields: seq<Str>)

  ghost predicate KeysAre(rows: seq<Row>, fields: seq<Str>) {
    forall r | r in rows :: r.Keys == set f | f in fields
  }

  /** Every row of a table has exactly the fields of its schema. */
  ghost predicate WellFormed(db: Database) {
    forall t | t in db :: KeysAre(db[t].rows, db[t].fields)
  }

  /** All tables of the plan exist. */
  predicate Over(plan: Plan, db: Database) {
    match plan
    case TablePlan(t) => t in db
    case SelectPlan(p, _) => Over(p, db)
    case ProductPlan(p1, p2) => Over(p1, db) && Over(p2, db)
    case ProjectPlan(p, _) => Over(p, db)
  }

  function Schema(db: Database, plan: Plan): seq<Str>
    requires Over(plan, db)
  {
    match plan
    case TablePlan(t) => db[t].fields
    case SelectPlan(p, _) => Schema(db, p)
    case ProductPlan(p1, p2) => Schema(db, p1) + Schema(db, p2)
    case ProjectPlan(_, fields) => fields
  }

  function Filter(pred: Pred, rows: seq<Row>): seq<Row> {
    if rows == [] then []
    else
      var n := |rows| - 1;
      Filter(pred, rows[..n]) + if Satisfied(pred, rows[n]) then [rows[n]] else []
  }

  /** A row of a product: a field of the left side hides one of the right side. */
  function CrossOne(l: Row, right: seq<Row>): (rows: seq<Row>)
    ensures |rows| == |right|
  {
    if right == [] then []
    else
      var n := |right| - 1;
      CrossOne(l, right[..n]) + [right[n] + l]
  }

  function Cross(left: seq<Row>, right: seq<Row>): seq<Row> {
    if left == [] then []
    else
      var n := |left| - 1;
      Cross(left[..n], right) + CrossOne(left[n], right)
  }

  function Restrict(r: Row, fields: seq<Str>): Row {
    map f | f in fields && f in r :: r[f]
  }

  function Project(rows: seq<Row>, fields: seq<Str>): seq<Row> {
    if rows == [] then []
    else
      var n := |rows| - 1;
      Project(rows[..n], fields) + [Restrict(rows[n], fields)]
  }

  /** The rows of a plan, as nested loops, filters and projections give them. */
  function Eval(db: Database, plan: Plan): seq<Row>
    requires Over(plan, db)
  {
    match plan
    case TablePlan(t) => db[t].rows
    case SelectPlan(p, pred) => Filter(pred, Eval(db, p))
    case ProductPlan(p1, p2) => Cross(Eval(db, p1), Eval(db, p2))
    case ProjectPlan(p, fields) => Project(Eval(db, p), fields)
  }

  /** No evaluation asks for a field that is not there. */
  ghost predicate NeverThrows(db: Database, plan: Plan)
    requires Over(plan, db)
  {
    match plan
    case TablePlan(_) => true
    case SelectPlan(p, pred) => NeverThrows(db, p) && forall t, r | t in pred && r in Eval(db, p) :: t.Defined(r)
    case ProductPlan(p1, p2) => NeverThrows(db, p1) && NeverThrows(db, p2)
    case ProjectPlan(p, fields) => NeverThrows(db, p) && forall f | f in fields :: f in Schema(db, p)
  }

  // ---------------------------------------------------------------------------------------------
  // How often each row occurs
  // ---------------------------------------------------------------------------------------------

  function FieldSet(fields: seq<Str>): set<Str> {
    set f | f in fields
  }

  lemma {:induction false} FilterCount(pred: Pred, rows: seq<Row>, r: Row)
    ensures multiset(Filter(pred, rows))[r] == if Satisfied(pred, r) then multiset(rows)[r] else 0
  {
    if rows != [] {
      hide Satisfied;
      FilterCount(pred, rows[..|rows| - 1], r);
      assert rows == rows[..|rows| - 1] + [rows[|rows| - 1]];
    }
  }

  /** A row of a selection occurs as often as in its input if the sides of all terms agree, and not at all otherwise. */
  lemma SelectedRows(pred: Pred, rows: seq<Row>, r: Row)
    ensures multiset(Filter(pred, rows))[r] == if forall t | t in pred :: Agrees(t, r) then multiset(rows)[r] else 0
  {
    FilterCount(pred, rows, r);
    SatisfiedMeaning(pred, r);
  }

  /** With disjoint fields a joined row tells its two parts. */
  lemma Parts(l: Row, x: Row, r: Row, fl: seq<Str>, fx: seq<Str>)
    requires FieldSet(fl) !! FieldSet(fx) && l.Keys == FieldSet(fl) && x.Keys == FieldSet(fx)
    ensures x + l == r <==> r.Keys == FieldSet(fl) + FieldSet(fx) && Restrict(r, fl) == l && Restrict(r, fx) == x
  {
    if x + l == r {
      assert (x + l).Keys == l.Keys + x.Keys;
      assert Restrict(r, fl) == l;
      assert Restrict(r, fx) == x;
    }
    if r.Keys == FieldSet(fl) + FieldSet(fx) && Restrict(r, fl) == l && Restrict(r, fx) == x {
      assert (x + l).Keys == r.Keys;
      forall f | f in r
        ensures (x + l)[f] == r[f]
      {
        assert f in fl ==> Restrict(r, fl)[f] == r[f];
        assert f in fx ==> Restrict(r, fx)[f] == r[f];
      }
      assert x + l == r;
    }
  }

  lemma {:induction false} CrossOneCount(l: Row, right: seq<Row>, r: Row, fl: seq<Str>, fx: seq<Str>)
    requires FieldSet(fl) !! FieldSet(fx) && l.Keys == FieldSet(fl) && KeysAre(right, fx)
    ensures multiset(CrossOne(l, right))[r] ==
            if r.Keys == FieldSet(fl) + FieldSet(fx) && Restrict(r, fl) == l
            then multiset(right)[Restrict(r, fx)] else 0
  {
    if right != [] {
      var n := |right| - 1;
      CrossOneCount(l, right[..n], r, fl, fx);
      KeysFieldSet(right, fx, n);
      Parts(l, right[n], r, fl, fx);
      CountLast(right, Restrict(r, fx));
      CountLast(CrossOne(l, right), r);
      assert CrossOne(l, right)[..n] == CrossOne(l, right[..n]);
      hide Restrict, FieldSet, KeysAre, CrossOne;
    }
  }

  lemma KeysFieldSet(rows: seq<Row>, fields: seq<Str>, k: nat)
    requires KeysAre(rows, fields) && k < |rows|
    ensures rows[k].Keys == FieldSet(fields)
  {}

  /** A joined row occurs once for every occurrence of its left part and of its right part. */
  lemma {:induction false} CrossCount(left: seq<Row>, right: seq<Row>, r: Row, fl: seq<Str>, fx: seq<Str>)
    requires FieldSet(fl) !! FieldSet(fx) && KeysAre(left, fl) && KeysAre(right, fx)
    ensures multiset(Cross(left, right))[r] ==
            if r.Keys == FieldSet(fl) + FieldSet(fx)
            then Times(multiset(left)[Restrict(r, fl)], multiset(right)[Restrict(r, fx)]) else 0
  {
    var m := multiset(right)[Restrict(r, fx)];
    TimesLaws(0, m, 0);
    if left != [] {
      var n := |left| - 1;
      CrossCount(left[..n], right, r, fl, fx);
      KeysFieldSet(left, fl, n);
      CrossOneCount(left[n], right, r, fl, fx);
      CountLast(left, Restrict(r, fl));
      hide Restrict, FieldSet, KeysAre, Times, CrossOne;
      TimesLaws(multiset(left[..n])[Restrict(r, fl)], m, 0);
      assert multiset(Cross(left, right))[r] == multiset(Cross(left[..n], right))[r] + multiset(CrossOne(left[n],
             right))[r];
    }
  }

  lemma {:induction false} CrossKeys(left: seq<Row>, right: seq<Row>, fl: seq<Str>, fx: seq<Str>)
    requires FieldSet(fl) !! FieldSet(fx) && KeysAre(left, fl) && KeysAre(right, fx)
    ensures KeysAre(Cross(left, right), fl + fx)
  {
    forall r | r in Cross(left, right)
      ensures r.Keys == set f | f in fl + fx
    {
      CrossCount(left, right, r, fl, fx);
      assert r in multiset(Cross(left, right));
    }
  }

  lemma FilterKeys(pred: Pred, rows: seq<Row>, fields: seq<Str>)
    requires KeysAre(rows, fields)
    ensures KeysAre(Filter(pred, rows), fields)
  {
    forall r | r in Filter(pred, rows)
      ensures r.Keys == set f | f in fields
    {
      FilterCount(pred, rows, r);
      assert r in multiset(Filter(pred, rows));
      assert r in multiset(rows);
    }
  }

  // ---------------------------------------------------------------------------------------------
  // Projection
  // ---------------------------------------------------------------------------------------------

  lemma {:induction false} ProjectAppend(a: seq<Row>, b: seq<Row>, fields: seq<Str>)
    ensures Project(a + b, fields) == Project(a, fields) + Project(b, fields)
  {
    if b == [] {
      assert a + b == a;
    } else {
      var n := |b| - 1;
      ProjectAppend(a, b[..n], fields);
      assert (a + b)[..|a + b| - 1] == a + b[..n];
    }
  }

  lemma ProjectOne(r: Row, fields: seq<Str>)
    ensures Project([r], fields) == [Restrict(r, fields)]
  {
    assert [r][..0] == [];
  }

  /** The part of a row on some of its fields. */
  ghost predicate IsPart(x: Row, r: Row, fields: seq<Str>) {
    && (forall f :: f in x <==> f in fields)
    && forall f | f in fields :: f in r && x[f] == r[f]
  }

  /** The projection has, in the same order, the part of each row. */
  lemma {:induction false} ProjectedRows(rows: seq<Row>, fields: seq<Str>)
    requires forall r, f | r in rows && f in fields :: f in r
    ensures |Project(rows, fields)| == |rows|
    ensures forall k | 0 <= k < |rows| :: IsPart(Project(rows, fields)[k], rows[k], fields)
  {
    if rows != [] {
      var n := |rows| - 1;
      ProjectedRows(rows[..n], fields);
      assert rows[n] in rows && IsPart(Restrict(rows[n], fields), rows[n], fields);
      assert forall k | 0 <= k < n :: Project(rows, fields)[k] == Project(rows[..n], fields)[k];
    }
  }

  lemma ProjectRemove(a: seq<Row>, r: Row, b: seq<Row>, fields: seq<Str>)
    ensures multiset(Project(a + [r] + b, fields)) == multiset(Project(a + b, fields)) + multiset{Restrict(r, fields)}
  {
    ProjectAppend(a + [r], b, fields);
    ProjectAppend(a, [r], fields);
    ProjectAppend(a, b, fields);
    ProjectOne(r, fields);
  }

  lemma BagWithout<T>(a: seq<T>, x: T, b: seq<T>)
    ensures multiset(a + [x] + b) == multiset(a + b) + multiset{x}
  {
    assert multiset(a + [x] + b) == multiset(a + [x]) + multiset(b);
  }

  lemma BagCancel<T>(a: multiset<T>, b: multiset<T>, x: T)
    requires a + multiset{x} == b + multiset{x}
    ensures a == b
  {
    forall y
      ensures a[y] == b[y]
    {
      assert (a + multiset{x})[y] == (b + multiset{x})[y];
    }
  }

  /** Two lists of the same elements: without the last element of the one, the rest still agrees. */
  lemma BagMatch<T>(a: seq<T>, b: seq<T>) returns (a0: seq<T>, x: T, b0: seq<T>, b1: seq<T>)
    requires multiset(a) == multiset(b) && a != []
    ensures a == a0 + [x] && b == b0 + [x] + b1 && multiset(a0) == multiset(b0 + b1)
  {
    var n := |a| - 1;
    a0, x := a[..n], a[n];
    assert a == a0 + [x] + [] && a0 + [] == a0;
    assert x in multiset(b);
    var k :| 0 <= k < |b| && b[k] == x;
    b0, b1 := b[..k], b[k + 1..];
    assert b == b0 + [x] + b1;
    BagWithout(b0, x, b1);
    BagWithout(a0, x, []);
    BagCancel(multiset(a0), multiset(b0 + b1), x);
  }

  lemma EmptyBag<T>(a: seq<T>, b: seq<T>)
    requires multiset(a) == multiset(b) && a == []
    ensures b == []
  {
    assert |a| == |multiset(a)| && |b| == |multiset(b)|;
  }

  lemma ProjectStep(a: seq<Row>, x: Row, b: seq<Row>, c: seq<Row>, fields: seq<Str>)
    requires multiset(Project(a, fields)) == multiset(Project(b + c, fields))
    ensures multiset(Project(a + [x], fields)) == multiset(Project(b + [x] + c, fields))
  {
    ProjectRemove(b, x, c, fields);
    ProjectAppend(a, [x], fields);
    ProjectOne(x, fields);
  }

  /** Projection of a bag of rows does not depend on their order. */
  lemma {:induction false} ProjectBag(a: seq<Row>, b: seq<Row>, fields: seq<Str>)
    requires multiset(a) == multiset(b)
    ensures multiset(Project(a, fields)) == multiset(Project(b, fields))
    decreases |a|
  {
    if a == [] {
      EmptyBag(a, b);
    } else {
      hide Project, Restrict;
      var a0, x, b0, b1 := BagMatch(a, b);
      ProjectBag(a0, b0 + b1, fields);
      ProjectStep(a0, x, b0, b1, fields);
    }
  }
}

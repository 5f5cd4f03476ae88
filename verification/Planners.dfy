/**
 The basic and the heuristic query planner, and why their plans mean the same.
 */
module Planners {
  import opened Types
  import opened Sequences
  import opened Ordering
  import opened Queries

  function AllFields(db: Database, tables: seq<Str>): seq<Str>
    requires forall t | t in tables :: t in db
  {
    if tables == [] then []
    else AllFields(db, tables[..|tables| - 1]) + db[tables[|tables| - 1]].fields
  }

  /** No table occurs twice, and no two tables have a field name in common. */
  ghost predicate DisjointFields(db: Database, tables: seq<Str>)
    requires forall t | t in tables :: t in db
  {
    && (forall t | t in tables :: multiset(tables)[t] == 1)
    && forall x, y | x in tables && y in tables && x != y :: FieldSet(db[x].fields) !! FieldSet(db[y].fields)
  }

  /** Base tables with disjoint field names; every field of the query is a field of one of them. */
  ghost predicate Admissible(db: Database, data: QueryData) {
    && WellFormed(db) && data.tables != []
    && (forall t | t in data.tables :: t in db) && DisjointFields(db, data.tables)
    && (forall t | t in data.pred :: t.AppliesTo(AllFields(db, data.tables)))
    && (forall f | f in data.fields :: f in AllFields(db, data.tables))
  }

  // ---------------------------------------------------------------------------------------------
  // TablePlanner
  // ---------------------------------------------------------------------------------------------

  datatype TablePlanner = TablePlanner(table: Str, schema: seq<Str>, pred: Pred)
  {
    function AddSelectPred(p: Plan): Plan {
      match NonEmpty(Applicable(pred, schema))
      case Some(sub) => SelectPlan(p, sub)
      case None => p
    }

    function MakeSelectPlan(): Plan {
      AddSelectPred(TablePlan(table))
    }

    function MakeProductPlan(current: Plan): Plan {
      ProductPlan(current, MakeSelectPlan())
    }

    function AddJoinPred(p: Plan, currsch: seq<Str>): Plan {
      match NonEmpty(Joining(pred, currsch, schema))
      case Some(sub) => SelectPlan(p, sub)
      case None => p
    }

    /** Nothing if no term joins the table with the current plan. */
    function MakeJoinPlan(db: Database, current: Plan): Option<Plan>
      requires Over(current, db)
    {
      match NonEmpty(Joining(pred, schema, Schema(db, current)))
      case None => None
      case Some(_) => Some(AddJoinPred(MakeProductPlan(current), Schema(db, current)))
    }
  }

  predicate Plans(tp: TablePlanner, db: Database, pred: Pred) {
    tp.table in db && tp.schema == db[tp.table].fields && tp.pred == pred
  }

  // ---------------------------------------------------------------------------------------------
  // What a plan over some of the tables means
  // ---------------------------------------------------------------------------------------------

  /** How often the tables together have the parts of row `r`. */
  function Weight(db: Database, tables: seq<Str>, r: Row): nat
    requires forall t | t in tables :: t in db
  {
    if tables == [] then 1
    else
      var n := |tables| - 1;
      Times(Weight(db, tables[..n], r), multiset(db[tables[n]].rows)[Restrict(r, db[tables[n]].fields)])
  }

  /** The row satisfies all terms that a schema allows to evaluate. */
  predicate SatisfiesThose(pred: Pred, sch: seq<Str>, r: Row) {
    forall t | t in pred && t.AppliesTo(sch) :: t.IsSatisfied(r)
  }

  function Expected(db: Database, pred: Pred, tables: seq<Str>, r: Row): nat
    requires forall t | t in tables :: t in db
  {
    var sch := AllFields(db, tables);
    if r.Keys == FieldSet(sch) && SatisfiesThose(pred, sch, r) then Weight(db, tables, r) else 0
  }

  /** The plan gives the product of the tables, restricted by all terms that can be evaluated on it. */
  ghost predicate Means(db: Database, pred: Pred, tables: seq<Str>, plan: Plan)
    requires forall t | t in tables :: t in db
  {
    && Over(plan, db) && FieldSet(Schema(db, plan)) == FieldSet(AllFields(db, tables))
    && KeysAre(Eval(db, plan), AllFields(db, tables))
    && NeverThrows(db, plan)
    && forall r :: multiset(Eval(db, plan))[r] == Expected(db, pred, tables, r)
  }

  lemma FieldSetAppend(a: seq<Str>, b: seq<Str>)
    ensures FieldSet(a + b) == FieldSet(a) + FieldSet(b)
  {}

  lemma SameSchema(t: Term, sch: seq<Str>, sch': seq<Str>)
    requires FieldSet(sch) == FieldSet(sch')
    ensures t.AppliesTo(sch) == t.AppliesTo(sch')
  {
    assert forall f :: f in sch <==> f in FieldSet(sch);
    assert forall f :: f in sch' <==> f in FieldSet(sch');
  }

  lemma {:induction false} JoiningSame(pred: Pred, a: seq<Str>, b: seq<Str>, a': seq<Str>, b': seq<Str>)
    requires FieldSet(a) == FieldSet(a') && FieldSet(b) == FieldSet(b')
    ensures Joining(pred, a, b) == Joining(pred, a', b') == Joining(pred, b, a)
  {
    if pred != [] {
      var n := |pred| - 1;
      JoiningSame(pred[..n], a, b, a', b');
      SameSchema(pred[n], a, a');
      SameSchema(pred[n], b, b');
      FieldSetAppend(a, b);
      FieldSetAppend(b, a);
      FieldSetAppend(a', b');
      SameSchema(pred[n], a + b, a' + b');
      SameSchema(pred[n], a + b, b + a);
    }
  }

  /** A term that applies to part of the fields of a row does not see the others. */
  lemma TermOnPart(t: Term, r: Row, sch: seq<Str>)
    requires t.AppliesTo(sch)
    ensures t.IsSatisfied(Restrict(r, sch)) == t.IsSatisfied(r)
    ensures t.Defined(Restrict(r, sch)) == t.Defined(r)
  {}

  lemma SatisfiesPart(pred: Pred, r: Row, sch: seq<Str>)
    ensures SatisfiesThose(pred, sch, Restrict(r, sch)) == SatisfiesThose(pred, sch, r)
  {
    forall t | t in pred && t.AppliesTo(sch)
      ensures t.IsSatisfied(Restrict(r, sch)) == t.IsSatisfied(r)
    {
      TermOnPart(t, r, sch);
    }
  }

  lemma ApplicableSatisfied(pred: Pred, sch: seq<Str>, r: Row)
    ensures Satisfied(Applicable(pred, sch), r) <==> SatisfiesThose(pred, sch, r)
  {
    ApplicableMembers(pred, sch);
  }

  lemma DefinedOn(t: Term, sch: seq<Str>, r: Row)
    requires t.AppliesTo(sch) && FieldSet(sch) <= r.Keys
    ensures t.Defined(r)
  {
    assert forall f :: f in sch <==> f in FieldSet(sch);
  }

  /** A term that applies to the union of two schemas applies to one of them or joins them. */
  lemma SatisfiesUnion(pred: Pred, a: seq<Str>, b: seq<Str>, r: Row)
    ensures SatisfiesThose(pred, a + b, r) <==>
            SatisfiesThose(pred, a, r) && SatisfiesThose(pred, b, r) && Satisfied(Joining(pred, a, b), r)
  {
    JoiningMembers(pred, a, b);
    assert forall t: Term :: t.AppliesTo(a) || t.AppliesTo(b) ==> t.AppliesTo(a + b);
    if SatisfiesThose(pred, a, r) && SatisfiesThose(pred, b, r) && Satisfied(Joining(pred, a, b), r) {
      forall t | t in pred && t.AppliesTo(a + b)
        ensures t.IsSatisfied(r)
      {
        assert Joins(t, a, b) ==> t in Joining(pred, a, b);
      }
    }
  }

  // ---------------------------------------------------------------------------------------------
  // One table more
  // ---------------------------------------------------------------------------------------------

  lemma WeightPart(db: Database, tables: seq<Str>, r: Row, sch: seq<Str>)
    requires forall t | t in tables :: t in db
    requires FieldSet(AllFields(db, tables)) <= FieldSet(sch)
    ensures Weight(db, tables, Restrict(r, sch)) == Weight(db, tables, r)
  {
    if tables != [] {
      var n := |tables| - 1;
      var last := db[tables[n]].fields;
      FieldSetAppend(AllFields(db, tables[..n]), last);
      WeightPart(db, tables[..n], r, sch);
      forall f | f in last
        ensures f in sch
      {
        assert f in FieldSet(last);
        assert f in FieldSet(sch);
      }
      assert Restrict(Restrict(r, sch), last) == Restrict(r, last);
    }
  }

  lemma WeightOne(db: Database, t: Str, r: Row)
    requires t in db
    ensures Weight(db, [t], r) == multiset(db[t].rows)[Restrict(r, db[t].fields)]
    ensures AllFields(db, [t]) == db[t].fields
  {
    assert [t][..0] == [];
    TimesLaws(0, multiset(db[t].rows)[Restrict(r, db[t].fields)], 0);
  }

  lemma RestrictAll(r: Row, sch: seq<Str>)
    requires r.Keys == FieldSet(sch)
    ensures Restrict(r, sch) == r
  {
    assert forall f :: f in sch <==> f in FieldSet(sch);
  }

  /** Rows of other keys do not occur. */
  lemma OtherKeys(rows: seq<Row>, sch: seq<Str>, r: Row)
    requires KeysAre(rows, sch) && r.Keys != FieldSet(sch)
    ensures multiset(rows)[r] == 0
  {
    assert r in multiset(rows) ==> r in rows;
  }

  /** The plan for one table alone. */
  lemma SelectTable(db: Database, pred: Pred, tp: TablePlanner)
    requires WellFormed(db) && Plans(tp, db, pred)
    ensures Means(db, pred, [tp.table], tp.MakeSelectPlan())
  {
    var rows, sch := db[tp.table].rows, tp.schema;
    var sub := Applicable(pred, sch);
    var plan := tp.MakeSelectPlan();
    ApplicableMembers(pred, sch);
    FilterKeys(sub, rows, sch);
    assert Eval(db, TablePlan(tp.table)) == rows;
    forall r
      ensures multiset(Eval(db, plan))[r] == Expected(db, pred, [tp.table], r)
    {
      WeightOne(db, tp.table, r);
      ApplicableSatisfied(pred, sch, r);
      FilterCount(sub, rows, r);
      if r.Keys == FieldSet(sch) {
        RestrictAll(r, sch);
      } else {
        OtherKeys(rows, sch, r);
      }
    }
    WeightOne(db, tp.table, map[]);
    forall t, r | t in sub && r in rows
      ensures t.Defined(r)
    {
      DefinedOn(t, sch, r);
    }
  }

  /** The product with one more table, before the joining terms are applied. */
  lemma ProductCount(db: Database, pred: Pred, tables: seq<Str>, current: Plan, tp: TablePlanner, r: Row)
    requires WellFormed(db) && (forall t | t in tables :: t in db) && Means(db, pred, tables, current)
    requires Plans(tp, db, pred) && FieldSet(AllFields(db, tables)) !! FieldSet(tp.schema)
    ensures Over(tp.MakeProductPlan(current), db)
    ensures var a, b := AllFields(db, tables), tp.schema;
            multiset(Eval(db, tp.MakeProductPlan(current)))[r] ==
            if r.Keys == FieldSet(a + b) && SatisfiesThose(pred, a, r) && SatisfiesThose(pred, b, r)
            then Weight(db, tables + [tp.table], r) else 0
  {
    hide Restrict, FieldSet, Weight, Times, Applicable, Cross;
    var a, b := AllFields(db, tables), tp.schema;
    var ra, rb := Restrict(r, a), Restrict(r, b);
    SelectTable(db, pred, tp);
    WeightOne(db, tp.table, rb);
    CrossCount(Eval(db, current), Eval(db, tp.MakeSelectPlan()), r, a, b);
    FieldSetAppend(a, b);
    if r.Keys == FieldSet(a + b) {
      PartKeys(r, a, b);
      WeightPart(db, tables, r, a);
      SatisfiesPart(pred, r, a);
      SatisfiesPart(pred, r, b);
      RestrictAll(rb, b);
      WeightMore(db, tables, tp.table, r);
      TimesLaws(Weight(db, tables, r), multiset(db[tp.table].rows)[rb], 0);
      TimesLaws(0, multiset(db[tp.table].rows)[rb], 0);
    }
  }

  lemma PartKeys(r: Row, a: seq<Str>, b: seq<Str>)
    requires r.Keys == FieldSet(a + b)
    ensures Restrict(r, a).Keys == FieldSet(a) && Restrict(r, b).Keys == FieldSet(b)
  {
    forall f
      ensures (f in a ==> f in r) && (f in b ==> f in r)
    {
      assert f in a + b ==> f in FieldSet(a + b);
    }
  }

  lemma WeightMore(db: Database, tables: seq<Str>, t: Str, r: Row)
    requires t in db && forall t | t in tables :: t in db
    ensures Weight(db, tables + [t], r) == Times(Weight(db, tables, r), multiset(db[t].rows)[Restrict(r, db[t].fields)])
    ensures AllFields(db, tables + [t]) == AllFields(db, tables) + db[t].fields
  {
    assert (tables + [t])[..|tables|] == tables;
  }

  lemma ProductKeys(db: Database, pred: Pred, tables: seq<Str>, current: Plan, tp: TablePlanner)
    requires WellFormed(db) && (forall t | t in tables :: t in db) && Means(db, pred, tables, current)
    requires Plans(tp, db, pred) && FieldSet(AllFields(db, tables)) !! FieldSet(tp.schema)
    ensures var p := tp.MakeProductPlan(current); var sch := AllFields(db, tables) + tp.schema;
            Over(p, db) && KeysAre(Eval(db, p), sch) && NeverThrows(db, p) && FieldSet(Schema(db, p)) == FieldSet(sch)
  {
    SelectTable(db, pred, tp);
    WeightOne(db, tp.table, map[]);
    CrossKeys(Eval(db, current), Eval(db, tp.MakeSelectPlan()), AllFields(db, tables), tp.schema);
    FieldSetAppend(AllFields(db, tables), tp.schema);
    FieldSetAppend(Schema(db, current), tp.schema);
    assert Schema(db, tp.MakeSelectPlan()) == tp.schema;
  }

  /** Adding a table with its own terms and then the joining terms keeps the meaning. */
  lemma JoinMeans(db: Database, pred: Pred, tables: seq<Str>, current: Plan, tp: TablePlanner)
    requires WellFormed(db) && (forall t | t in tables :: t in db) && Means(db, pred, tables, current)
    requires Plans(tp, db, pred) && FieldSet(AllFields(db, tables)) !! FieldSet(tp.schema)
    ensures Means(db, pred, tables + [tp.table], tp.AddJoinPred(tp.MakeProductPlan(current), Schema(db, current)))
  {
    hide Restrict, FieldSet, Weight, Times, Applicable, Cross, SatisfiesThose;
    var p := tp.MakeProductPlan(current);
    var a, b := AllFields(db, tables), tp.schema;
    var sub := Joining(pred, a, b);
    var plan := tp.AddJoinPred(p, Schema(db, current));
    JoiningSame(pred, Schema(db, current), b, a, b);
    JoiningMembers(pred, a, b);
    ProductKeys(db, pred, tables, current, tp);
    FilterKeys(sub, Eval(db, p), a + b);
    WeightMore(db, tables, tp.table, map[]);
    forall t, r | t in sub && r in Eval(db, p)
      ensures t.Defined(r)
    {
      RowKeys(Eval(db, p), a + b, r);
      DefinedOn(t, a + b, r);
    }
    forall r
      ensures multiset(Eval(db, plan))[r] == Expected(db, pred, tables + [tp.table], r)
    {
      ProductCount(db, pred, tables, current, tp, r);
      SatisfiesUnion(pred, a, b, r);
      FilterCount(sub, Eval(db, p), r);
    }
  }

  lemma RowKeys(rows: seq<Row>, sch: seq<Str>, r: Row)
    requires KeysAre(rows, sch) && r in rows
    ensures r.Keys == FieldSet(sch)
  {}

  // ---------------------------------------------------------------------------------------------
  // The order of the tables does not matter
  // ---------------------------------------------------------------------------------------------

  lemma {:induction false} WeightRemove(db: Database, a: seq<Str>, t: Str, b: seq<Str>, r: Row)
    requires t in db && (forall t' | t' in a + b :: t' in db)
    ensures Weight(db, a + [t] + b, r) ==
            Times(Weight(db, a + b, r), multiset(db[t].rows)[Restrict(r, db[t].fields)])
    ensures FieldSet(AllFields(db, a + [t] + b)) == FieldSet(AllFields(db, a + b)) + FieldSet(db[t].fields)
  {
    hide Restrict, FieldSet, Times;
    if b == [] {
      assert a + [t] + b == a + [t] && a + b == a;
      WeightMore(db, a, t, r);
      FieldSetAppend(AllFields(db, a), db[t].fields);
    } else {
      var n := |b| - 1;
      var x := b[n];
      assert x in a + b && b == b[..n] + [x];
      assert a + [t] + b == (a + [t] + b[..n]) + [x] && a + b == (a + b[..n]) + [x];
      WeightRemove(db, a, t, b[..n], r);
      WeightMore(db, a + [t] + b[..n], x, r);
      WeightMore(db, a + b[..n], x, r);
      FieldSetAppend(AllFields(db, a + [t] + b[..n]), db[x].fields);
      FieldSetAppend(AllFields(db, a + b[..n]), db[x].fields);
      var w, mt, mx := Weight(db, a + b[..n], r), multiset(db[t].rows)[Restrict(r, db[t].fields)],
                       multiset(db[x].rows)[Restrict(r, db[x].fields)];
      TimesLaws(w, mt, mx);
      TimesLaws(mt, mx, 0);
      TimesLaws(w, mx, mt);
    }
  }

  lemma WeightStep(db: Database, a: seq<Str>, t: Str, b: seq<Str>, c: seq<Str>, r: Row)
    requires t in db && (forall x | x in a :: x in db) && (forall x | x in b + c :: x in db)
    requires Weight(db, a, r) == Weight(db, b + c, r)
    requires FieldSet(AllFields(db, a)) == FieldSet(AllFields(db, b + c))
    ensures Weight(db, a + [t], r) == Weight(db, b + [t] + c, r)
    ensures FieldSet(AllFields(db, a + [t])) == FieldSet(AllFields(db, b + [t] + c))
  {
    hide Restrict, FieldSet, Times, Weight, AllFields;
    WeightRemove(db, b, t, c, r);
    WeightMore(db, a, t, r);
    FieldSetAppend(AllFields(db, a), db[t].fields);
  }

  lemma {:induction false} WeightOrder(db: Database, a: seq<Str>, b: seq<Str>, r: Row)
    requires multiset(a) == multiset(b) && (forall t | t in a :: t in db) && (forall t | t in b :: t in db)
    ensures Weight(db, a, r) == Weight(db, b, r) && FieldSet(AllFields(db, a)) == FieldSet(AllFields(db, b))
    decreases |a|
  {
    if a == [] {
      EmptyBag(a, b);
    } else {
      hide Restrict, FieldSet, Times, Weight, AllFields;
      var a0, x, b0, b1 := BagMatch(a, b);
      WeightOrder(db, a0, b0 + b1, r);
      WeightStep(db, a0, x, b0, b1, r);
    }
  }

  lemma SameTables(a: seq<Str>, b: seq<Str>)
    requires multiset(a) == multiset(b)
    ensures forall t :: t in a <==> t in b
  {
    forall t
      ensures t in a <==> t in b
    {
      assert t in a <==> t in multiset(a);
      assert t in b <==> t in multiset(b);
    }
  }

  lemma ExpectedOrder(db: Database, pred: Pred, a: seq<Str>, b: seq<Str>, r: Row)
    requires multiset(a) == multiset(b) && (forall t | t in a :: t in db)
    ensures forall t | t in b :: t in db
    ensures Expected(db, pred, a, r) == Expected(db, pred, b, r)
  {
    SameTables(a, b);
    WeightOrder(db, a, b, r);
    forall t | t in pred
      ensures t.AppliesTo(AllFields(db, a)) == t.AppliesTo(AllFields(db, b))
    {
      SameSchema(t, AllFields(db, a), AllFields(db, b));
    }
  }

  lemma {:induction false} DisjointFromAll(db: Database, tables: seq<Str>, t: Str)
    requires t in db && forall x | x in tables :: x in db && FieldSet(db[x].fields) !! FieldSet(db[t].fields)
    ensures FieldSet(AllFields(db, tables)) !! FieldSet(db[t].fields)
  {
    hide FieldSet;
    if tables != [] {
      var n := |tables| - 1;
      DisjointFromAll(db, tables[..n], t);
      FieldSetAppend(AllFields(db, tables[..n]), db[tables[n]].fields);
    } else {
      assert FieldSet([]) == {} by {
        NoFields();
      }
    }
  }

  lemma NoFields()
    ensures FieldSet([]) == {}
  {}

  /** A table that is still to be joined has no field in common with those already joined. */
  lemma StillDisjoint(db: Database, tables: seq<Str>, done: seq<Str>, rest: seq<Str>, t: Str)
    requires (forall x | x in tables :: x in db) && DisjointFields(db, tables)
    requires multiset(done) + multiset(rest) == multiset(tables) && t in rest
    ensures t in db && forall x | x in done :: x in db
    ensures FieldSet(AllFields(db, done)) !! FieldSet(db[t].fields)
  {
    assert t in multiset(tables);
    forall x | x in done
      ensures x in db && FieldSet(db[x].fields) !! FieldSet(db[t].fields)
    {
      assert x in multiset(done) && x in multiset(tables);
    }
    DisjointFromAll(db, done, t);
  }

  // ---------------------------------------------------------------------------------------------
  // The basic planner
  // ---------------------------------------------------------------------------------------------

  /** The tables multiplied in the order of the query. */
  function Products(tables: seq<Str>): Plan
    requires tables != []
  {
    if |tables| == 1 then TablePlan(tables[0])
    else ProductPlan(Products(tables[..|tables| - 1]), TablePlan(tables[|tables| - 1]))
  }

  function BasicPlan(data: QueryData): Plan
    requires data.tables != []
  {
    ProjectPlan(SelectPlan(Products(data.tables), data.pred), data.fields)
  }

  class BasicQueryPlanner {
    constructor () {}

    /** The source takes the first of the plans without asking whether there is one. */
    method CreatePlan(data: QueryData) returns (plan: Plan)
      requires data.tables != []
      ensures plan == BasicPlan(data)
    {
      var plans: seq<Plan> := [];
      for k := 0 to |data.tables|
        invariant |plans| == k && forall m | 0 <= m < k :: plans[m] == TablePlan(data.tables[m])
      {
        plans := plans + [TablePlan(data.tables[k])];
      }
      var p := plans[0];
      for k := 1 to |plans|
        invariant p == Products(data.tables[..k])
      {
        assert data.tables[..k + 1][..k] == data.tables[..k];
        p := ProductPlan(p, plans[k]);
      }
      assert data.tables[..|plans|] == data.tables;
      p := SelectPlan(p, data.pred);
      plan := ProjectPlan(p, data.fields);
    }
  }

  lemma {:induction false} ProductsMean(db: Database, tables: seq<Str>, done: seq<Str>, rest: seq<Str>)
    requires WellFormed(db) && (forall t | t in tables :: t in db) && DisjointFields(db, tables)
    requires done != [] && tables == done + rest
    ensures (forall t | t in done :: t in db) && Means(db, [], done, Products(done))
    decreases |done|
  {
    hide Means, WellFormed, DisjointFields, Products;
    var n := |done| - 1;
    var tp := TablePlanner(done[n], db[done[n]].fields, []);
    OneProduct(done);
    if n == 0 {
      SelectTable(db, [], tp);
      assert [tp.table] == done;
    } else {
      ProductsMean(db, tables, done[..n], [done[n]] + rest);
      StillDisjoint(db, tables, done[..n], [done[n]] + rest, done[n]);
      MeansOver(db, [], done[..n], Products(done[..n]));
      JoinMeans(db, [], done[..n], Products(done[..n]), tp);
      assert done[..n] + [done[n]] == done;
    }
  }

  lemma OneProduct(tables: seq<Str>)
    requires tables != []
    ensures |tables| == 1 ==> Products(tables) == TablePlan(tables[0])
    ensures |tables| > 1 ==>
              var n := |tables| - 1; Products(tables) == ProductPlan(Products(tables[..n]), TablePlan(tables[n]))
  {}

  lemma MeansOver(db: Database, pred: Pred, tables: seq<Str>, plan: Plan)
    requires (forall t | t in tables :: t in db) && Means(db, pred, tables, plan)
    ensures Over(plan, db)
  {}

  /** What the basic plan selects. */
  lemma BasicMeans(db: Database, data: QueryData, r: Row)
    requires Admissible(db, data)
    ensures Over(BasicPlan(data), db) && NeverThrows(db, BasicPlan(data))
    ensures multiset(Eval(db, SelectPlan(Products(data.tables), data.pred)))[r] ==
            Expected(db, data.pred, data.tables, r)
  {
    var sch := AllFields(db, data.tables);
    assert data.tables == data.tables + [];
    ProductsMean(db, data.tables, data.tables, []);
    var p := Products(data.tables);
    FilterCount(data.pred, Eval(db, p), r);
    forall t, x | t in data.pred && x in Eval(db, p)
      ensures t.Defined(x)
    {
      RowKeys(Eval(db, p), sch, x);
      DefinedOn(t, sch, x);
    }
    forall f | f in data.fields
      ensures f in Schema(db, p)
    {
      assert f in FieldSet(sch);
    }
  }

  /**
   The answers of a query, said without plans: a row with the fields of all tables, whose part on each table is a row of
   that table and for which the sides of every term agree, gives its part on the fields of the query.
   */
  ghost predicate IsAnswer(db: Database, data: QueryData, x: Row)
    requires forall t | t in data.tables :: t in db
  {
    exists r ::
      FromTables(db, data.tables, r) && (forall t | t in data.pred :: Agrees(t, r)) && IsPart(x, r, data.fields)
  }

  /** A row of the product of the tables. */
  ghost predicate FromTables(db: Database, tables: seq<Str>, r: Row)
    requires forall t | t in tables :: t in db
  {
    && (forall f :: f in r <==> exists t :: t in tables && f in db[t].fields)
    && forall t | t in tables :: exists x :: x in db[t].rows && IsPart(x, r, db[t].fields)
  }

  lemma {:induction false} FieldsOfTables(db: Database, tables: seq<Str>, f: Str)
    requires forall t | t in tables :: t in db
    ensures f in AllFields(db, tables) <==> exists t :: t in tables && f in db[t].fields
  {
    if tables != [] {
      var n := |tables| - 1;
      FieldsOfTables(db, tables[..n], f);
      assert tables == tables[..n] + [tables[n]];
    }
  }

  lemma PartMeaning(x: Row, r: Row, fields: seq<Str>)
    ensures IsPart(x, r, fields) <==> (forall f | f in fields :: f in r) && x == Restrict(r, fields)
  {
    if IsPart(x, r, fields) {
      assert x.Keys == Restrict(r, fields).Keys;
    }
  }

  lemma {:induction false} WeightMeaning(db: Database, tables: seq<Str>, r: Row)
    requires (forall t | t in tables :: t in db) && forall t, f | t in tables && f in db[t].fields :: f in r
    ensures Weight(db, tables, r) > 0 <==>
            forall t | t in tables :: exists x :: x in db[t].rows && IsPart(x, r, db[t].fields)
  {
    if tables != [] {
      var n := |tables| - 1;
      var last := db[tables[n]];
      WeightMeaning(db, tables[..n], r);
      hide Weight, Times, IsPart, Restrict;
      assert tables == tables[..n] + [tables[n]];
      WeightMore(db, tables[..n], tables[n], r);
      TimesPositive(Weight(db, tables[..n], r), multiset(last.rows)[Restrict(r, last.fields)]);
      PartMeaning(Restrict(r, last.fields), r, last.fields);
      forall x | x in last.rows && IsPart(x, r, last.fields)
        ensures Restrict(r, last.fields) in last.rows
      {
        PartMeaning(x, r, last.fields);
      }
      assert Restrict(r, last.fields) in multiset(last.rows) <==> Restrict(r, last.fields) in last.rows;
    }
  }

  lemma TimesPositive(m: nat, n: nat)
    ensures Times(m, n) > 0 <==> m > 0 && n > 0
  {}

  /** The selected rows of the basic plan. */
  lemma SelectedMeaning(db: Database, data: QueryData, r: Row)
    requires Admissible(db, data)
    ensures var plan := SelectPlan(Products(data.tables), data.pred);
            && Over(plan, db)
            && (r in Eval(db, plan) <==>
                FromTables(db, data.tables, r) && forall t | t in data.pred :: Agrees(t, r))
  {
    hide Means, Products, DisjointFields, Eval, Agrees;
    var sch := AllFields(db, data.tables);
    BasicMeans(db, data, r);
    SatisfiedMeaning(data.pred, r);
    assert SatisfiesThose(data.pred, sch, r) <==> Satisfied(data.pred, r);
    forall f
      ensures f in sch <==> exists t :: t in data.tables && f in db[t].fields
    {
      FieldsOfTables(db, data.tables, f);
    }
    if r.Keys == FieldSet(sch) {
      WeightMeaning(db, data.tables, r);
    }
    var rows := Eval(db, SelectPlan(Products(data.tables), data.pred));
    assert r in rows <==> r in multiset(rows);
  }

  /** Two plans give the same rows, each equally often. */
  ghost predicate SameRows(db: Database, a: Plan, b: Plan) {
    Over(a, db) && Over(b, db) && multiset(Eval(db, a)) == multiset(Eval(db, b))
  }

  lemma ProjectMembers(rows: seq<Row>, fields: seq<Str>, x: Row)
    requires forall r, f | r in rows && f in fields :: f in r
    ensures x in Project(rows, fields) <==> exists r :: r in rows && IsPart(x, r, fields)
  {
    ProjectedRows(rows, fields);
    hide Project, IsPart;
    var out := Project(rows, fields);
    if x in out {
      var k :| 0 <= k < |out| && out[k] == x;
      assert rows[k] in rows && IsPart(x, rows[k], fields);
    }
    if r :| r in rows && IsPart(x, r, fields) {
      var k :| 0 <= k < |rows| && rows[k] == r;
      assert IsPart(out[k], r, fields);
      OnePart(x, out[k], r, fields);
      assert out[k] in out;
    }
  }

  lemma OnePart(x: Row, y: Row, r: Row, fields: seq<Str>)
    requires IsPart(x, r, fields) && IsPart(y, r, fields)
    ensures x == y
  {
    assert x.Keys == y.Keys;
  }

  /** The rows of the basic plan, and of every plan that gives the same ones, are the answers of the query. */
  lemma PlanAnswers(db: Database, data: QueryData, plan: Plan, x: Row)
    requires Admissible(db, data) && SameRows(db, plan, BasicPlan(data))
    ensures x in Eval(db, plan) <==> IsAnswer(db, data, x)
  {
    var selected := SelectPlan(Products(data.tables), data.pred);
    var basic := BasicPlan(data);
    BasicMeans(db, data, x);
    assert Eval(db, basic) == Project(Eval(db, selected), data.fields);
    SelectedFields(db, data);
    hide Eval, Project, IsPart, Agrees, FromTables, Admissible, NeverThrows;
    ProjectMembers(Eval(db, selected), data.fields, x);
    forall r
      ensures r in Eval(db, selected) <==> FromTables(db, data.tables, r) && forall t | t in data.pred :: Agrees(t, r)
    {
      SelectedMeaning(db, data, r);
    }
    assert x in Eval(db, plan) <==> x in multiset(Eval(db, plan));
    assert x in Eval(db, basic) <==> x in multiset(Eval(db, basic));
  }

  lemma SelectedFields(db: Database, data: QueryData)
    requires Admissible(db, data)
    ensures var plan := SelectPlan(Products(data.tables), data.pred);
            Over(plan, db) && forall r, f | r in Eval(db, plan) && f in data.fields :: f in r
  {
    var plan := SelectPlan(Products(data.tables), data.pred);
    BasicMeans(db, data, map[]);
    hide Eval;
    forall r, f | r in Eval(db, plan) && f in data.fields
      ensures f in r
    {
      SelectedMeaning(db, data, r);
      FieldsOfTables(db, data.tables, f);
    }
  }

  // ---------------------------------------------------------------------------------------------
  // The heuristic planner
  // ---------------------------------------------------------------------------------------------

  function Names(tps: seq<TablePlanner>): seq<Str> {
    seq(|tps|, k requires 0 <= k < |tps| => tps[k].table)
  }

  function Without<T>(s: seq<T>, k: nat): seq<T>
    requires k < |s|
  {
    s[..k] + s[k + 1..]
  }

  /** The tables joined so far and those still to be joined are the tables of the query. */
  ghost predicate Joined(db: Database, data: QueryData, done: seq<Str>, tps: seq<TablePlanner>, current: Plan) {
    && Admissible(db, data) && (forall tp | tp in tps :: Plans(tp, db, data.pred))
    && (forall t | t in done :: t in db) && Means(db, data.pred, done, current)
    && multiset(done) + multiset(Names(tps)) == multiset(data.tables)
  }

  lemma NamesWithout(tps: seq<TablePlanner>, k: nat)
    requires k < |tps|
    ensures multiset(Names(tps)) == multiset(Names(Without(tps, k))) + multiset{tps[k].table}
  {
    BagWithout(Names(tps[..k]), tps[k].table, Names(tps[k + 1..]));
    assert Names(tps) == Names(tps[..k]) + [tps[k].table] + Names(tps[k + 1..]);
    assert Names(Without(tps, k)) == Names(tps[..k]) + Names(tps[k + 1..]);
  }

  /** Joining one of the tables that are left, whichever it is. */
  lemma JoinedMore(db: Database, data: QueryData, done: seq<Str>, tps: seq<TablePlanner>, current: Plan, k: nat)
    requires Joined(db, data, done, tps, current) && k < |tps|
    ensures Over(current, db)
    ensures var plan := tps[k].AddJoinPred(tps[k].MakeProductPlan(current), Schema(db, current));
            Joined(db, data, done + [tps[k].table], Without(tps, k), plan)
  {
    hide Means, Expected;
    var t := tps[k].table;
    MeansOver(db, data.pred, done, current);
    assert tps[k] in tps && Names(tps)[k] == t;
    StillDisjoint(db, data.tables, done, Names(tps), t);
    JoinMeans(db, data.pred, done, current, tps[k]);
    NamesWithout(tps, k);
  }

  lemma JoinedFirst(db: Database, data: QueryData, tps: seq<TablePlanner>, k: nat)
    requires Admissible(db, data) && (forall tp | tp in tps :: Plans(tp, db, data.pred))
    requires multiset(Names(tps)) == multiset(data.tables) && k < |tps|
    ensures Joined(db, data, [tps[k].table], Without(tps, k), tps[k].MakeSelectPlan())
  {
    hide Means, Expected, Admissible;
    assert tps[k] in tps;
    WellFormedOf(db, data);
    SelectTable(db, data.pred, tps[k]);
    NamesWithout(tps, k);
  }

  lemma WellFormedOf(db: Database, data: QueryData)
    requires Admissible(db, data)
    ensures WellFormed(db)
  {}

  /** When all tables are joined, the plan means what the basic plan means. */
  lemma JoinedAll(db: Database, data: QueryData, done: seq<Str>, current: Plan)
    requires Joined(db, data, done, [], current)
    ensures SameRows(db, ProjectPlan(current, data.fields), BasicPlan(data))
    ensures NeverThrows(db, ProjectPlan(current, data.fields))
  {
    var selected := SelectPlan(Products(data.tables), data.pred);
    BasicMeans(db, data, map[]);
    forall r
      ensures multiset(Eval(db, current))[r] == multiset(Eval(db, selected))[r]
    {
      BasicMeans(db, data, r);
      assert multiset(done) == multiset(data.tables);
      ExpectedOrder(db, data.pred, done, data.tables, r);
    }
    ProjectBag(Eval(db, current), Eval(db, selected), data.fields);
    WeightOrder(db, done, data.tables, map[]);
    forall f | f in data.fields
      ensures f in Schema(db, current)
    {
      assert f in FieldSet(AllFields(db, done));
    }
  }

  class HeuristicQueryPlanner {
    const db: Database
    const cost: Plan -> nat                // `records_output`: any numbers
    var tableplanners: seq<TablePlanner>

    constructor (db: Database, cost: Plan -> nat)
      ensures this.db == db && this.cost == cost
    {
      this.db, this.cost, tableplanners := db, cost, [];
    }

    /** Takes the planner whose select plan is the cheapest, the first one of several. */
    method GetLowestSelectPlan() returns (best: Option<Plan>, ghost at: nat)
      modifies this
      ensures best.None? <==> old(tableplanners) == []
      ensures best.None? ==> tableplanners == []
      ensures best.Some? ==>
                && at < |old(tableplanners)| && tableplanners == Without(old(tableplanners), at)
                && best.value == old(tableplanners)[at].MakeSelectPlan()
                && (forall m | 0 <= m < |old(tableplanners)| ::
                      cost(best.value) <= cost(old(tableplanners)[m].MakeSelectPlan()))
                && (forall m | 0 <= m < at :: cost(best.value) < cost(old(tableplanners)[m].MakeSelectPlan()))
    {
      var bestidx := 0;
      best := None;
      for idx := 0 to |tableplanners|
        invariant best.None? <==> idx == 0
        invariant best.Some? ==>
                    && bestidx < idx && best.value == tableplanners[bestidx].MakeSelectPlan()
                    && (forall m | 0 <= m < idx :: cost(best.value) <= cost(tableplanners[m].MakeSelectPlan()))
                    && (forall m | 0 <= m < bestidx :: cost(best.value) < cost(tableplanners[m].MakeSelectPlan()))
      {
        var plan := tableplanners[idx].MakeSelectPlan();
        if best.None? || cost(plan) < cost(best.value) {
          bestidx := idx;
          best := Some(plan);
        }
      }
      at := bestidx;
      if best.Some? {
        tableplanners := Without(tableplanners, bestidx);
      }
    }

    /** Takes the planner whose join with the current plan is the cheapest, if any planner has a join. */
    method GetLowestJoinPlan(current: Plan) returns (best: Option<Plan>, ghost at: nat)
      requires Over(current, db)
      modifies this
      ensures best.None? ==> tableplanners == old(tableplanners)
                             && forall tp | tp in tableplanners :: tp.MakeJoinPlan(db, current) == None
      ensures best.Some? ==>
                && at < |old(tableplanners)| && tableplanners == Without(old(tableplanners), at)
                && best == old(tableplanners)[at].MakeJoinPlan(db, current)
                && (forall m | 0 <= m < |old(tableplanners)| ::
                      var other := old(tableplanners)[m].MakeJoinPlan(db, current);
                      other.Some? ==> cost(best.value) <= cost(other.value))
    {
      var bestidx := 0;
      best := None;
      for idx := 0 to |tableplanners|
        invariant best.None? ==> forall m | 0 <= m < idx :: tableplanners[m].MakeJoinPlan(db, current) == None
        invariant best.Some? ==>
                    && bestidx < idx && best == tableplanners[bestidx].MakeJoinPlan(db, current)
                    && (forall m | 0 <= m < idx ::
                          var other := tableplanners[m].MakeJoinPlan(db, current);
                          other.Some? ==> cost(best.value) <= cost(other.value))
      {
        var plan := tableplanners[idx].MakeJoinPlan(db, current);
        if plan.Some? {
          if best.None? || cost(plan.value) < cost(best.value) {
            bestidx := idx;
            best := plan;
          }
        }
      }
      at := bestidx;
      if best.Some? {
        tableplanners := Without(tableplanners, bestidx);
      }
    }

    /** Takes the planner whose product with the current plan is the cheapest. */
    method GetLowestProductPlan(current: Plan) returns (best: Option<Plan>, ghost at: nat)
      modifies this
      ensures best.None? <==> old(tableplanners) == []
      ensures best.None? ==> tableplanners == []
      ensures best.Some? ==>
                && at < |old(tableplanners)| && tableplanners == Without(old(tableplanners), at)
                && best.value == old(tableplanners)[at].MakeProductPlan(current)
                && (forall m | 0 <= m < |old(tableplanners)| ::
                      cost(best.value) <= cost(old(tableplanners)[m].MakeProductPlan(current)))
    {
      var bestidx := 0;
      best := None;
      for idx := 0 to |tableplanners|
        invariant best.None? <==> idx == 0
        invariant best.Some? ==>
                    && bestidx < idx && best.value == tableplanners[bestidx].MakeProductPlan(current)
                    && (forall m | 0 <= m < idx :: cost(best.value) <= cost(tableplanners[m].MakeProductPlan(current)))
      {
        var plan := tableplanners[idx].MakeProductPlan(current);
        if best.None? || cost(plan) < cost(best.value) {
          bestidx := idx;
          best := Some(plan);
        }
      }
      at := bestidx;
      if best.Some? {
        tableplanners := Without(tableplanners, bestidx);
      }
    }

    /** A table without joining terms: its product is its join. */
    lemma ProductIsJoin(current: Plan, tp: TablePlanner)
      requires Over(current, db) && tp.MakeJoinPlan(db, current) == None
      ensures tp.AddJoinPred(tp.MakeProductPlan(current), Schema(db, current)) == tp.MakeProductPlan(current)
    {
      JoiningSame(tp.pred, Schema(db, current), tp.schema, Schema(db, current), tp.schema);
    }

    /** A planner for every table of the query. */
    method AddPlanners(data: QueryData)
      requires forall t | t in data.tables :: t in db
      modifies this
      ensures (forall tp | tp in tableplanners :: Plans(tp, db, data.pred)) && Names(tableplanners) == data.tables
    {
      tableplanners := [];
      for k := 0 to |data.tables|
        invariant (forall tp | tp in tableplanners :: Plans(tp, db, data.pred))
                  && Names(tableplanners) == data.tables[..k]
      {
        var t := data.tables[k];
        tableplanners := tableplanners + [TablePlanner(t, db[t].fields, data.pred)];
      }
    }

    /** One round of the loop: a join if there is one, otherwise a product. */
    method AddTable(current: Plan, ghost data: QueryData, ghost done: seq<Str>) returns (plan: Plan,
                    ghost done': seq<Str>)
      requires tableplanners != [] && Joined(db, data, done, tableplanners, current)
      modifies this
      ensures |tableplanners| == |old(tableplanners)| - 1 && Joined(db, data, done', tableplanners, plan)
    {
      hide Joined, Means, Admissible, Expected;
      ghost var tps := tableplanners;
      ghost var at;
      JoinedMore(db, data, done, tps, current, 0);
      var p;
      p, at := GetLowestJoinPlan(current);
      if p.None? {
        p, at := GetLowestProductPlan(current);
        assert tps[at] in tps;
        ProductIsJoin(current, tps[at]);
      } else {
        JoiningSame(tps[at].pred, Schema(db, current), tps[at].schema, Schema(db, current), tps[at].schema);
      }
      JoinedMore(db, data, done, tps, current, at);
      plan, done' := p.value, done + [tps[at].table];
    }

    /**
     The greedy planner: whatever the costs, its plan gives the rows of the basic plan. Without tables there is no
     plan, and the source throws.
     */
    method CreatePlan(data: QueryData) returns (plan: Option<Plan>)
      requires Admissible(db, data) || data.tables == []
      modifies this
      ensures plan.None? <==> data.tables == []
      ensures plan.Some? ==> SameRows(db, plan.value, BasicPlan(data)) && NeverThrows(db, plan.value)
      ensures plan.Some? ==> forall x :: x in Eval(db, plan.value) <==> IsAnswer(db, data, x)
    {
      hide Joined, IsAnswer, Means, Expected;
      AddPlanners(data);
      ghost var tps, at := tableplanners, 0;
      var current;
      current, at := GetLowestSelectPlan();
      if current.None? {
        return None;
      }
      JoinedFirst(db, data, tps, at);
      ghost var done := [tps[at].table];
      var p := current.value;
      while tableplanners != []
        invariant Joined(db, data, done, tableplanners, p)
        decreases |tableplanners|
      {
        p, done := AddTable(p, data, done);
      }
      JoinedAll(db, data, done, p);
      plan := Some(ProjectPlan(p, data.fields));
      forall x
        ensures x in Eval(db, plan.value) <==> IsAnswer(db, data, x)
      {
        PlanAnswers(db, data, plan.value, x);
      }
    }
  }
}

/**
 Groups of a sorted list: what `GroupByScan` is meant to deliver.
 */
module Grouping {
  import opened Types
  import opened Ordering

  /** `GroupValue`: the values of the group fields. */
  function KeyOf(fields: seq<Str>, r: Row): Row
    requires HasFields(r, fields)
  {
    map f | f in fields :: r[f]
  }

  lemma SameKey(fields: seq<Str>, a: Row, b: Row)
    requires HasFields(a, fields) && HasFields(b, fields)
    ensures KeyOf(fields, a) == KeyOf(fields, b) <==> Compare(fields, a, b) == 0
  {
    CompareSwaps(fields, a, b);
    if KeyOf(fields, a) == KeyOf(fields, b) {
      forall f | f in fields
        ensures a[f] == b[f]
      {
        assert KeyOf(fields, a)[f] == KeyOf(fields, b)[f];
      }
    }
  }

  function Concat(groups: seq<seq<Row>>): seq<Row> {
    if groups == [] then [] else Concat(groups[..|groups| - 1]) + groups[|groups| - 1]
  }

  ghost predicate OneKey(fields: seq<Str>, g: seq<Row>) {
    g != [] && AllHave(g, fields) && forall r | r in g :: KeyOf(fields, r) == KeyOf(fields, g[0])
  }

  ghost predicate NewKey(fields: seq<Str>, g: seq<Row>, h: seq<Row>)
    requires OneKey(fields, g) && OneKey(fields, h)
  {
    KeyOf(fields, g[0]) != KeyOf(fields, h[0])
  }

  ghost predicate HasKey(fields: seq<Str>, g: seq<Row>, key: Row)
  {
    OneKey(fields, g) && KeyOf(fields, g[0]) == key
  }

  /** The rows cut into stretches of equal keys, as long as possible. */
  ghost predicate Grouped(fields: seq<Str>, rows: seq<Row>, groups: seq<seq<Row>>) {
    && Concat(groups) == rows
    && (forall k | 0 <= k < |groups| :: OneKey(fields, groups[k]))
    && forall k | 0 < k < |groups| :: NewKey(fields, groups[k - 1], groups[k])
  }

  /** The rows with a given key, wherever they stand. */
  function RowsOf(fields: seq<Str>, rows: seq<Row>, key: Row): seq<Row>
    requires AllHave(rows, fields)
  {
    if rows == [] then []
    else
      var n := |rows| - 1;
      RowsOf(fields, rows[..n], key) + if KeyOf(fields, rows[n]) == key then [rows[n]] else []
  }

  /** `v` is the largest value of the field, and it occurs. */
  ghost predicate IsMax(rows: seq<Row>, f: Str, v: Value) {
    && (forall r | r in rows :: f in r && LessEq(r[f], v))
    && exists r | r in rows :: f in r && r[f] == v
  }

  /** Largest in the order of ints and strings. */
  lemma MaxMeaning(rows: seq<Row>, f: Str, v: Value)
    ensures IsMax(rows, f, v) <==>
            && (exists r :: r in rows && f in r && r[f] == v)
            && forall r | r in rows :: f in r && (r[f] == v || Smaller(r[f], v))
  {
    hide Smaller, LessEq;
    forall r | r in rows && f in r
      ensures LessEq(r[f], v) <==> r[f] == v || Smaller(r[f], v)
    {
      OrderMeaning(r[f], v);
    }
  }

  function Sizes(groups: seq<seq<Row>>): nat {
    if groups == [] then 0 else Sizes(groups[..|groups| - 1]) + |groups[|groups| - 1]|
  }

  // ---------------------------------------------------------------------------------------------
  // Proofs
  // ---------------------------------------------------------------------------------------------

  lemma {:induction false} SizesSum(groups: seq<seq<Row>>)
    ensures Sizes(groups) == |Concat(groups)|
  {
    if groups != [] {
      SizesSum(groups[..|groups| - 1]);
    }
  }

  lemma {:induction false} GroupsAtMost(fields: seq<Str>, rows: seq<Row>, groups: seq<seq<Row>>)
    requires Grouped(fields, rows, groups)
    ensures |groups| <= |rows|
    decreases |groups|
  {
    if groups != [] {
      var n := |groups| - 1;
      GroupedInit(fields, rows, groups);
      GroupsAtMost(fields, Concat(groups[..n]), groups[..n]);
    }
  }

  lemma {:induction false} ConcatMembers(groups: seq<seq<Row>>)
    ensures forall r :: r in Concat(groups) <==> exists k :: 0 <= k < |groups| && r in groups[k]
  {
    if groups != [] {
      var n := |groups| - 1;
      ConcatMembers(groups[..n]);
      forall r
        ensures r in Concat(groups) <==> exists k :: 0 <= k < |groups| && r in groups[k]
      {
        if r in Concat(groups[..n]) {
          var k :| 0 <= k < n && r in groups[..n][k];
          assert r in groups[k];
        } else if k :| 0 <= k < |groups| && r in groups[k] {
          assert k < n ==> r in groups[..n][k];
        }
      }
    }
  }

  lemma GroupedHave(fields: seq<Str>, rows: seq<Row>, groups: seq<seq<Row>>)
    requires Grouped(fields, rows, groups)
    ensures AllHave(rows, fields)
  {
    ConcatMembers(groups);
    forall r | r in rows
      ensures HasFields(r, fields)
    {
      var k :| 0 <= k < |groups| && r in groups[k];
      assert OneKey(fields, groups[k]);
    }
  }

  /** All groups but the last one group all rows but those of the last one. */
  lemma GroupedInit(fields: seq<Str>, rows: seq<Row>, groups: seq<seq<Row>>)
    requires Grouped(fields, rows, groups) && groups != []
    ensures var n := |groups| - 1; Grouped(fields, Concat(groups[..n]), groups[..n])
    ensures var n := |groups| - 1; rows == Concat(groups[..n]) + groups[n] && OneKey(fields, groups[n])
  {
    var n := |groups| - 1;
    assert forall k | 0 <= k < n :: groups[..n][k] == groups[k];
  }

  /** Every group of sorted rows is smaller than the last one. */
  lemma {:induction false} GroupsAscend(fields: seq<Str>, rows: seq<Row>, groups: seq<seq<Row>>, i: nat)
    requires Grouped(fields, rows, groups) && Sorted(fields, rows) && i < |groups| - 1
    ensures OneKey(fields, groups[i]) && OneKey(fields, groups[|groups| - 1])
    ensures Compare(fields, groups[i][0], groups[|groups| - 1][0]) < 0
    decreases |groups|
  {
    hide Compare, HasFields, KeyOf;
    var n := |groups| - 1;
    GroupedInit(fields, rows, groups);
    var head := Concat(groups[..n]);
    GroupedInit(fields, head, groups[..n]);
    assert groups[..n][n - 1] == groups[n - 1] && groups[..n][..n - 1] == groups[..n - 1];
    var k := |Concat(groups[..n - 1])|;
    assert Before(fields, groups[n - 1][0], groups[n][0]) by {
      assert head[k] == groups[n - 1][0] && rows[k] == head[k] && rows[|head|] == groups[n][0];
      assert Before(fields, rows[k], rows[|head|]);
    }
    SameKey(fields, groups[n - 1][0], groups[n][0]);
    if i < n - 1 {
      assert Sorted(fields, head) by {
        assert forall m | 0 <= m < |head| :: head[m] == rows[m];
      }
      GroupsAscend(fields, head, groups[..n], i);
      BeforeTransitive(fields, groups[i][0], groups[n - 1][0], groups[n][0]);
    }
  }

  lemma {:induction false} RowsOfAppend(fields: seq<Str>, a: seq<Row>, b: seq<Row>, key: Row)
    requires AllHave(a, fields) && AllHave(b, fields)
    ensures RowsOf(fields, a + b, key) == RowsOf(fields, a, key) + RowsOf(fields, b, key)
  {
    if b == [] {
      assert a + b == a;
    } else {
      var n := |b| - 1;
      RowsOfAppend(fields, a, b[..n], key);
      assert (a + b)[..|a + b| - 1] == a + b[..n];
    }
  }

  lemma {:induction false} RowsOfOne(fields: seq<Str>, g: seq<Row>, key: Row)
    requires AllHave(g, fields) && forall r | r in g :: KeyOf(fields, r) == key
    ensures RowsOf(fields, g, key) == g
  {
    if g != [] {
      RowsOfOne(fields, g[..|g| - 1], key);
      assert g == g[..|g| - 1] + [g[|g| - 1]];
    }
  }

  lemma {:induction false} RowsOfNone(fields: seq<Str>, g: seq<Row>, key: Row)
    requires AllHave(g, fields) && forall r | r in g :: KeyOf(fields, r) != key
    ensures RowsOf(fields, g, key) == []
  {
    if g != [] {
      RowsOfNone(fields, g[..|g| - 1], key);
    }
  }

  /** A group of sorted rows has all rows with its key. */
  lemma {:induction false} GroupIsAll(fields: seq<Str>, rows: seq<Row>, groups: seq<seq<Row>>, i: nat)
    requires Grouped(fields, rows, groups) && Sorted(fields, rows) && i < |groups|
    ensures AllHave(rows, fields) && OneKey(fields, groups[i])
    ensures groups[i] == RowsOf(fields, rows, KeyOf(fields, groups[i][0]))
    decreases |groups|
  {
    hide Compare, HasFields, KeyOf, RowsOf;
    var n := |groups| - 1;
    GroupedHave(fields, rows, groups);
    GroupedInit(fields, rows, groups);
    var head := Concat(groups[..n]);
    GroupedHave(fields, head, groups[..n]);
    var key := KeyOf(fields, groups[i][0]);
    RowsOfAppend(fields, head, groups[n], key);
    if i < n {
      GroupsAscend(fields, rows, groups, i);
      SameKey(fields, groups[i][0], groups[n][0]);
      RowsOfNone(fields, groups[n], key);
      assert forall m | 0 <= m < |head| :: head[m] == rows[m];
      GroupIsAll(fields, head, groups[..n], i);
    } else {
      RowsOfOne(fields, groups[n], key);
      forall r | r in head
        ensures KeyOf(fields, r) != key
      {
        LastKeyIsNew(fields, rows, groups, r);
      }
      RowsOfNone(fields, head, key);
    }
  }

  lemma LastKeyIsNew(fields: seq<Str>, rows: seq<Row>, groups: seq<seq<Row>>, r: Row)
    requires Grouped(fields, rows, groups) && Sorted(fields, rows) && groups != []
    requires r in Concat(groups[..|groups| - 1])
    ensures OneKey(fields, groups[|groups| - 1]) && HasFields(r, fields)
    ensures KeyOf(fields, r) != KeyOf(fields, groups[|groups| - 1][0])
  {
    hide Compare, HasFields, KeyOf;
    var n := |groups| - 1;
    ConcatMembers(groups[..n]);
    var k :| 0 <= k < n && r in groups[..n][k];
    GroupsAscend(fields, rows, groups, k);
    SameKey(fields, groups[k][0], groups[n][0]);
  }

  /**
   What grouping sorted rows means: every key has exactly one group, a group has exactly the rows of its key, and
   the sizes of the groups add up to the number of rows.
   */
  lemma GroupByMeaning(fields: seq<Str>, rows: seq<Row>, groups: seq<seq<Row>>)
    requires Grouped(fields, rows, groups) && Sorted(fields, rows)
    ensures AllHave(rows, fields) && forall i | 0 <= i < |groups| :: OneKey(fields, groups[i])
    ensures forall i, j | 0 <= i < j < |groups| :: NewKey(fields, groups[i], groups[j])
    ensures forall i | 0 <= i < |groups| :: groups[i] == RowsOf(fields, rows, KeyOf(fields, groups[i][0]))
    ensures forall r | r in rows :: exists i :: 0 <= i < |groups| && HasKey(fields, groups[i], KeyOf(fields, r))
    ensures Sizes(groups) == |rows|
  {
    hide Compare, HasFields, KeyOf, RowsOf;
    GroupedHave(fields, rows, groups);
    SizesSum(groups);
    ConcatMembers(groups);
    forall i, j | 0 <= i < j < |groups|
      ensures NewKey(fields, groups[i], groups[j])
    {
      KeysDiffer(fields, rows, groups, i, j);
    }
    forall i | 0 <= i < |groups|
      ensures groups[i] == RowsOf(fields, rows, KeyOf(fields, groups[i][0]))
    {
      GroupIsAll(fields, rows, groups, i);
    }
    forall r | r in rows
      ensures exists i :: 0 <= i < |groups| && HasKey(fields, groups[i], KeyOf(fields, r))
    {
      var k :| 0 <= k < |groups| && r in groups[k];
      assert HasKey(fields, groups[k], KeyOf(fields, r));
    }
  }

  lemma {:induction false} KeysDiffer(fields: seq<Str>, rows: seq<Row>, groups: seq<seq<Row>>, i: nat, j: nat)
    requires Grouped(fields, rows, groups) && Sorted(fields, rows) && i < j < |groups|
    ensures OneKey(fields, groups[i]) && OneKey(fields, groups[j])
    ensures KeyOf(fields, groups[i][0]) != KeyOf(fields, groups[j][0])
    decreases |groups|
  {
    hide Compare, HasFields, KeyOf;
    var n := |groups| - 1;
    if j == n {
      GroupsAscend(fields, rows, groups, i);
      SameKey(fields, groups[i][0], groups[n][0]);
    } else {
      GroupedInit(fields, rows, groups);
      var head := Concat(groups[..n]);
      assert forall m | 0 <= m < |head| :: head[m] == rows[m];
      KeysDiffer(fields, head, groups[..n], i, j);
    }
  }

  /** One more group with another key than the last one. */
  lemma GroupedSnoc(fields: seq<Str>, rows: seq<Row>, groups: seq<seq<Row>>, g: seq<Row>)
    requires Grouped(fields, rows, groups) && OneKey(fields, g)
    requires groups != [] ==> !HasKey(fields, groups[|groups| - 1], KeyOf(fields, g[0]))
    ensures Grouped(fields, rows + g, groups + [g])
  {
    hide KeyOf;
    assert (groups + [g])[..|groups|] == groups;
  }

  lemma NoGroups(fields: seq<Str>)
    ensures Grouped(fields, [], [])
  {}

  /** One more row with the same key. */
  lemma OneKeySnoc(fields: seq<Str>, g: seq<Row>, r: Row)
    requires OneKey(fields, g) && HasFields(r, fields) && KeyOf(fields, r) == KeyOf(fields, g[0])
    ensures OneKey(fields, g + [r])
  {}

  /** The rows in front of `base` are grouped, and `g` is the beginning of the next group, with key `key`. */
  ghost predicate Building(fields: seq<Str>, rows: seq<Row>, groups: seq<seq<Row>>, base: nat, g: seq<Row>, key: Row) {
    && base + |g| <= |rows| && g == rows[base..base + |g|]
    && Grouped(fields, rows[..base], groups)
    && HasKey(fields, g, key) && (groups != [] ==> !HasKey(fields, groups[|groups| - 1], key))
  }

  lemma BuildStart(fields: seq<Str>, rows: seq<Row>, groups: seq<seq<Row>>, base: nat)
    requires base < |rows| && AllHave(rows, fields) && Grouped(fields, rows[..base], groups)
    requires groups != [] ==> !HasKey(fields, groups[|groups| - 1], KeyOf(fields, rows[base]))
    ensures Building(fields, rows, groups, base, [rows[base]], KeyOf(fields, rows[base]))
  {
    hide Grouped;
    assert rows[base] in rows;
  }

  lemma BuildNext(fields: seq<Str>, rows: seq<Row>, groups: seq<seq<Row>>, base: nat, g: seq<Row>, key: Row)
    requires AllHave(rows, fields) && Building(fields, rows, groups, base, g, key)
    requires base + |g| < |rows| && KeyOf(fields, rows[base + |g|]) == key
    ensures Building(fields, rows, groups, base, g + [rows[base + |g|]], key)
  {
    hide Grouped, KeyOf;
    OneKeySnoc(fields, g, rows[base + |g|]);
  }

  /** The group is complete: all rows are passed, or the next one has another key. */
  lemma BuildEnd(fields: seq<Str>, rows: seq<Row>, groups: seq<seq<Row>>, base: nat, g: seq<Row>, key: Row)
    requires AllHave(rows, fields) && Building(fields, rows, groups, base, g, key)
    ensures Grouped(fields, rows[..base + |g|], groups + [g]) && HasKey(fields, g, key)
    ensures base + |g| < |rows| && KeyOf(fields, rows[base + |g|]) != key ==>
              !HasKey(fields, (groups + [g])[|groups|], KeyOf(fields, rows[base + |g|]))
  {
    hide Grouped, KeyOf;
    GroupedSnoc(fields, rows[..base], groups, g);
    assert rows[..base + |g|] == rows[..base] + g;
  }
}
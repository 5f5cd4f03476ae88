/**
 `GroupByScan` and its aggregation functions, over a sorted scan.
 */
module GroupBy {
  import opened Types
  import opened Sequences
  import opened Ordering
  import opened Sorting
  import opened Materialize
  import opened SortScans
  import opened Grouping

  const COUNTOF: Str := [99, 111, 117, 110, 116, 111, 102]
  const MAXOF: Str := [109, 97, 120, 111, 102]

  lemma FunctionNames()
    ensures COUNTOF == Ascii("countof") && MAXOF == Ascii("maxof")
  {}

  /** The aggregation functions. */
  datatype AggFn = CountFn(fldname: Str) | MaxFn(fldname: Str)
  {
    function FieldName(): Str {
      (if CountFn? then COUNTOF else MAXOF) + fldname
    }

    ghost predicate Reads(r: Row) {
      MaxFn? ==> fldname in r
    }

    /** The value for the rows of a group; without rows there is no largest one. A count is cast to a 32-bit int. */
    ghost predicate IsValue(g: seq<Row>, v: Option<Value>) {
      match this
      case CountFn(_) => v == Some(IntVal(ToInt32(|g|)))
      case MaxFn(f) => if g == [] then v == None else v.Some? && IsMax(g, f, v.value)
    }
  }

  /** An object of class `CountFn` or `MaxFn`. */
  class Aggregate {
    const fn: AggFn
    var count: nat
    var val: Option<Value>

    constructor (fn: AggFn)
      ensures this.fn == fn && Shows([])
    {
      this.fn := fn;
      count, val := 0, None;
    }

    /** The fields are those for the rows seen. */
    ghost predicate Shows(g: seq<Row>)
      reads this
    {
      match fn
      case CountFn(_) => count == |g|
      case MaxFn(f) => if g == [] then val == None else val.Some? && IsMax(g, f, val.value)
    }

    method ProcessFirst(s: SortScan)
      requires s.OnRow() && 0 < s.taken <= |s.Output()| && fn.Reads(s.Output()[s.taken - 1])
      modifies this
      ensures Shows([s.Output()[s.taken - 1]])
    {
      s.CurrentRow();
      ghost var row := s.Output()[s.taken - 1];
      match fn {
        case CountFn(_) => count := 1;
        case MaxFn(f) =>
          var v := s.GetVal(f);
          val := Some(v);
          FirstMax(row, f);
      }
    }

    method ProcessNext(s: SortScan, ghost g: seq<Row>)
      requires s.OnRow() && 0 < s.taken <= |s.Output()| && fn.Reads(s.Output()[s.taken - 1])
      requires Shows(g) && g != []
      modifies this
      ensures Shows(g + [s.Output()[s.taken - 1]])
    {
      s.CurrentRow();
      ghost var row := s.Output()[s.taken - 1];
      match fn {
        case CountFn(_) => count := count + 1;
        case MaxFn(f) =>
          var newval := s.GetVal(f);
          NextMax(g, row, f, val.value);
          if val.Some? && Greater(newval, val.value) {
            val := Some(newval);
          }
      }
    }

    /** `value`, for whatever rows have been seen. */
    method GetValue(ghost g: seq<Row>) returns (v: Option<Value>)
      requires Shows(g)
      ensures fn.IsValue(g, v)
      ensures fn.CountFn? && |g| < 0x8000_0000 ==> v == Some(IntVal(|g|))
      ensures fn.MaxFn? && g != [] ==>
                && v.Some? && (exists r :: r in g && fn.fldname in r && r[fn.fldname] == v.value)
                && forall r | r in g :: fn.fldname in r && (r[fn.fldname] == v.value || Smaller(r[fn.fldname], v.value))
    {
      hide Smaller;
      if val.Some? && fn.MaxFn? && g != [] {
        MaxMeaning(g, fn.fldname, val.value);
      }
      match fn {
        case CountFn(_) => v := Some(IntVal(ToInt32(count)));
        case MaxFn(_) => v := val;
      }
    }
  }

  /**
   What `v` has to be for field `f` in a group with rows `g`, or before the first group, without rows; nothing where the
   source throws. A group field has its value in all rows; any other name has to be that of an aggregation function,
   and the first such function counts.
   */
  ghost predicate IsAnswer(groupfields: seq<Str>, fns: seq<AggFn>, g: seq<Row>, f: Str, v: Option<Value>) {
    if f in groupfields then v == if g != [] && f in g[0] then Some(g[0][f]) else None
    else
      && ((forall k | 0 <= k < |fns| :: fns[k].FieldName() != f) ==> v == None)
      && forall k | 0 <= k < |fns| && fns[k].FieldName() == f && (forall m | 0 <= m < k :: fns[m].FieldName() != f) ::
           fns[k].IsValue(g, v)
  }

  /** The key holds what every row of the group holds. */
  lemma KeyField(fields: seq<Str>, g: seq<Row>, key: Row, f: Str)
    requires HasKey(fields, g, key) && f in fields
    ensures g != [] && f in key && f in g[0] && key[f] == g[0][f]
  {
    assert g[0] in g;
  }

  lemma FirstMax(row: Row, f: Str)
    requires f in row
    ensures IsMax([row], f, row[f])
  {
    assert row in [row];
  }

  lemma NextMax(g: seq<Row>, row: Row, f: Str, v: Value)
    requires f in row && IsMax(g, f, v)
    ensures IsMax(g + [row], f, if Greater(row[f], v) then row[f] else v)
  {
    TotalOrder(row[f], v);
    var m := if Greater(row[f], v) then row[f] else v;
    forall r | r in g + [row]
      ensures f in r && LessEq(r[f], m)
    {
      if r in g {
        TransitiveOrder(r[f], v, m);
      }
    }
    var r :| r in g && f in r && r[f] == v;
    assert r in g + [row] && row in g + [row];
  }

  class GroupByScan {
    const s: SortScan
    const groupfields: seq<Str>
    const aggfns: seq<Aggregate>
    var groupval: Option<Row>
    var moregroups: bool
    ghost var groups: seq<seq<Row>>       // the groups delivered so far, each with its rows

    ghost predicate Wired()
      reads s.Footprint()
    {
      && s.Valid() && this !in s.Footprint() && (forall a | a in aggfns :: a !in s.Footprint()) && Distinct(aggfns)
      && AllHave(s.Output(), groupfields) && Sorted(groupfields, s.Output())
      && forall a, r | a in aggfns && r in s.Output() :: a.fn.Reads(r)
    }

    /** The functions of the aggregates. */
    ghost function Fns(): (fns: seq<AggFn>)
      ensures |fns| == |aggfns| && forall k | 0 <= k < |fns| :: fns[k] == aggfns[k].fn
    {
      seq(|aggfns|, k requires 0 <= k < |aggfns| => aggfns[k].fn)
    }

    /** The rows of the current group; none before the first one. */
    ghost function Current(): seq<Row>
      reads this
    {
      if groups == [] then [] else groups[|groups| - 1]
    }

    /** Key and aggregates are those of the current group. */
    ghost predicate ShowsCurrent()
      reads this, aggfns
    {
      && (forall a | a in aggfns :: a.Shows(Current()))
      && (if groups == [] then groupval.None? else groupval.Some? && HasKey(groupfields, Current(), groupval.value))
    }

    /** The groups are those of the rows in front of the current row, which begins a new one; or of all rows. */
    ghost predicate Valid()
      reads this, aggfns, s.Footprint()
    {
      && Wired() && ShowsCurrent()
      && (if moregroups then
            && s.OnRow() && 0 < s.taken <= |s.Output()|
            && Grouped(groupfields, s.Output()[..s.taken - 1], groups)
            && (groups != [] ==> !HasKey(groupfields, Current(), KeyOf(groupfields, s.Output()[s.taken - 1])))
          else Grouped(groupfields, s.Output(), groups))
    }

    constructor (s: SortScan, groupfields: seq<Str>, aggfns: seq<Aggregate>)
      requires s.Valid() && AllHave(s.Output(), groupfields) && Sorted(groupfields, s.Output()) && s.Output() != []
      requires Distinct(aggfns) && forall a | a in aggfns :: a !in s.Footprint()
      requires forall a, r | a in aggfns && r in s.Output() :: a.fn.Reads(r)
      requires forall a | a in aggfns :: a.Shows([])
      modifies s, s.s1, s.s2
      ensures Valid() && groups == [] && moregroups && s.Output() == old(s.Output())
      ensures this.s == s && this.groupfields == groupfields && this.aggfns == aggfns
    {
      hide Compare, HasFields, Merge, Sorted, Grouped, KeyOf, Place, At;
      this.s, this.groupfields, this.aggfns := s, groupfields, aggfns;
      groupval, groups := None, [];
      moregroups := false;
      new;
      BeforeFirst();
    }

    method BeforeFirst()
      requires Wired() && ShowsCurrent() && groups == [] && s.Output() != []
      modifies `moregroups, s, s.s1, s.s2
      ensures Valid() && moregroups && s.Output() == old(s.Output())
    {
      hide Compare, HasFields, Merge, Sorted, Grouped, KeyOf, Standing, SortScan.SavedWell, IsMax;
      s.BeforeFirst();
      moregroups := s.Next();
      NoGroups(groupfields);
      assert s.Output()[..0] == [];
    }

    /** `GroupValue` of the current row. */
    method CurrentKey() returns (vals: Row)
      requires s.OnRow() && AllHave(s.Output(), groupfields)
      ensures 0 < s.taken <= |s.Output()| && vals == KeyOf(groupfields, s.Output()[s.taken - 1])
    {
      s.CurrentRow();
      ghost var row := s.Output()[s.taken - 1];
      assert row in s.Output();
      vals := map[];
      for k := 0 to |groupfields|
        invariant vals == map f | f in groupfields[..k] :: row[f]
      {
        var v := s.GetVal(groupfields[k]);
        vals := vals[groupfields[k] := v];
        assert groupfields[..k + 1] == groupfields[..k] + [groupfields[k]];
      }
      assert groupfields[..|groupfields|] == groupfields;
    }

    method ProcessFirst()
      requires Wired() && s.OnRow() && 0 < s.taken <= |s.Output()|
      modifies aggfns
      ensures Wired() && s.OnRow() && forall a | a in aggfns :: a.Shows([s.Output()[s.taken - 1]])
    {
      hide Compare, HasFields, Merge, Sorted, Standing, SortScan.SavedWell, IsMax;
      ghost var row := s.Output()[s.taken - 1];
      assert row in s.Output();
      for k := 0 to |aggfns|
        invariant forall m | 0 <= m < k :: aggfns[m].Shows([row])
      {
        aggfns[k].ProcessFirst(s);
      }
    }

    method ProcessNext(ghost g: seq<Row>)
      requires Wired() && s.OnRow() && 0 < s.taken <= |s.Output()|
      requires g != [] && forall a | a in aggfns :: a.Shows(g)
      modifies aggfns
      ensures forall a | a in aggfns :: a.Shows(g + [s.Output()[s.taken - 1]])
    {
      hide Compare, HasFields, Merge, Sorted, Standing, SortScan.SavedWell, IsMax;
      ghost var row := s.Output()[s.taken - 1];
      assert row in s.Output();
      for k := 0 to |aggfns|
        invariant forall m | 0 <= m < k :: aggfns[m].Shows(g + [row])
        invariant forall m | k <= m < |aggfns| :: aggfns[m].Shows(g)
      {
        aggfns[k].ProcessNext(s, g);
      }
    }

    /** The scan goes on; what the aggregates show stays. */
    method Step(ghost g: seq<Row>) returns (more: bool)
      requires Wired() && s.OnRow() && forall a | a in aggfns :: a.Shows(g)
      modifies s, s.s1, s.s2
      ensures Wired() && s.Output() == old(s.Output()) && forall a | a in aggfns :: a.Shows(g)
      ensures if more then s.OnRow() && s.taken == old(s.taken) + 1 <= |s.Output()|
              else s.taken == old(s.taken) == |s.Output()|
    {
      hide Compare, HasFields, Merge, Sorted, Standing, SortScan.SavedWell, IsMax;
      s.CurrentRow();
      more := s.Next();
    }

    /**
     The group in the making has the rows `g`; the row behind them is current, or there is none.
     */
    ghost predicate Collecting(base: nat, g: seq<Row>, more: bool)
      reads this, aggfns, s.Footprint()
    {
      && Wired() && groupval.Some? && g != []
      && Building(groupfields, s.Output(), groups, base, g, groupval.value)
      && (forall a | a in aggfns :: a.Shows(g))
      && (if more then s.OnRow() && s.taken == base + |g| + 1 <= |s.Output()| else base + |g| == |s.Output()|)
    }

    /** The first row of a group. */
    method Begin() returns (ghost g: seq<Row>, more: bool)
      requires Valid() && moregroups
      modifies `groupval, s, s.s1, s.s2, aggfns
      ensures Collecting(old(s.taken) - 1, g, more) && s.Output() == old(s.Output())
    {
      hide Compare, HasFields, Merge, Sorted, Standing, SortScan.SavedWell, IsMax, Grouped, KeyOf, Building,
           OneKey, HasKey;
      g := [s.Output()[s.taken - 1]];
      BuildStart(groupfields, s.Output(), groups, s.taken - 1);
      ProcessFirst();
      var key := CurrentKey();
      groupval := Some(key);
      more := Step(g);
    }

    /** The current row has the key of the group. */
    method Collect(ghost base: nat, ghost g: seq<Row>) returns (ghost g': seq<Row>, more: bool)
      requires Collecting(base, g, true) && KeyOf(groupfields, s.Output()[s.taken - 1]) == groupval.value
      modifies s, s.s1, s.s2, aggfns
      ensures Collecting(base, g', more) && |g'| == |g| + 1 && s.Output() == old(s.Output())
    {
      hide Compare, HasFields, Merge, Sorted, Standing, SortScan.SavedWell, IsMax, Grouped, KeyOf, Building,
           OneKey, HasKey;
      g' := g + [s.Output()[s.taken - 1]];
      BuildNext(groupfields, s.Output(), groups, base, g, groupval.value);
      ProcessNext(g);
      more := Step(g');
    }

    /** The group is complete. */
    ghost method Finish(base: nat, g: seq<Row>)
      requires Collecting(base, g, moregroups)
      requires moregroups ==> KeyOf(groupfields, s.Output()[s.taken - 1]) != groupval.value
      modifies `groups
      ensures Valid() && groups == old(groups) + [g] && g != []
    {
      hide Compare, HasFields, Merge, Sorted, Standing, SortScan.SavedWell, IsMax, Grouped, KeyOf, Building,
           OneKey, HasKey;
      BuildEnd(groupfields, s.Output(), groups, base, g, groupval.value);
      assert (groups + [g])[|groups|] == g;
      assert s.Output()[..|s.Output()|] == s.Output();
      groups := groups + [g];
    }

    /** Is the current row in the group? */
    method SameGroup(ghost base: nat, ghost g: seq<Row>) returns (same: bool)
      requires Collecting(base, g, true)
      ensures Collecting(base, g, true)
      ensures same <==> KeyOf(groupfields, s.Output()[s.taken - 1]) == groupval.value
    {
      hide Compare, HasFields, Merge, Sorted, Standing, SortScan.SavedWell, IsMax, Grouped, KeyOf, Building, OneKey,
           HasKey, SortScan.Valid;
      var gv := CurrentKey();
      same := groupval.value == gv;
    }

    /**
     Delivers the next group: `groupval` is its key and every aggregate has its value for the rows of the group, which
     is what `Valid` says of the current group.
     */
    method Next() returns (more: bool)
      requires Valid()
      modifies this, s, s.s1, s.s2, aggfns
      ensures Valid() && s.Output() == old(s.Output()) && more == old(moregroups)
      ensures !more ==> groups == old(groups) && !moregroups
      ensures more ==> Current() != [] && groups == old(groups) + [Current()]
    {
      hide Compare, HasFields, Merge, Sorted, Standing, SortScan.SavedWell, IsMax, Grouped, KeyOf, Building,
           OneKey, HasKey;
      if !moregroups {
        return false;
      }
      ghost var rows, base := s.Output(), s.taken - 1;
      ghost var g;
      g, more := Begin();
      while more
        invariant Collecting(base, g, more) && s.Output() == rows && groups == old(groups)
        decreases |rows| - |g|, more
      {
        moregroups := true;
        var same := SameGroup(base, g);
        if !same {
          Finish(base, g);
          return true;
        }
        g, more := Collect(base, g);
      }
      moregroups := false;
      Finish(base, g);
      more := true;
    }

    lemma AtMostRows()
      requires Valid()
      ensures |groups| <= |s.Output()|
    {
      hide Compare, HasFields, Merge, Sorted, Standing, SortScan.SavedWell, IsMax, Grouped, KeyOf, HasKey, OneKey;
      GroupsAtMost(groupfields, if moregroups then s.Output()[..s.taken - 1] else s.Output(), groups);
    }

    /** The value of a field in the current group. */
    method GetVal(f: Str) returns (v: Option<Value>)
      requires Valid()
      ensures IsAnswer(groupfields, Fns(), Current(), f, v)
    {
      hide Compare, HasFields, Merge, Sorted, Standing, SortScan.SavedWell, IsMax, Grouped, SortScan.Valid;
      if f in groupfields {
        if groups != [] {
          KeyField(groupfields, Current(), groupval.value, f);
        }
        return if groupval.Some? then Some(groupval.value[f]) else None;
      }
      for k := 0 to |aggfns|
        invariant forall m | 0 <= m < k :: aggfns[m].fn.FieldName() != f
      {
        if aggfns[k].fn.FieldName() == f {
          v := aggfns[k].GetValue(Current());
          return;
        }
      }
      v := None;
    }
  }
}

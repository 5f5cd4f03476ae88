/**
 The order on constants and the comparison of records on a list of fields.
 */
module Ordering {
  import opened Types

  /** `std::string::operator<`. */
  predicate LessBytes(a: Str, b: Str) {
    b != [] && (a == [] || a[0] < b[0] || (a[0] == b[0] && LessBytes(a[1..], b[1..])))
  }

  /** `Constant::operator<`: any int is below any string. */
  predicate Less(a: Value, b: Value) {
    if a.IntVal? && b.IntVal? then a.i < b.i
    else if a.StrVal? && b.StrVal? then LessBytes(a.s, b.s)
    else a.IntVal?
  }

  predicate LessEq(a: Value, b: Value) {
    Less(a, b) || a == b
  }

  /** `Constant::operator>`, as the source derives it. */
  predicate Greater(a: Value, b: Value) {
    !LessEq(a, b)
  }

  lemma {:induction false} BytesTotal(a: Str, b: Str)
    ensures (LessBytes(a, b) || a == b || LessBytes(b, a))
    ensures !(LessBytes(a, b) && LessBytes(b, a)) && !LessBytes(a, a)
    decreases |a|
  {
    if a != [] {
      BytesTotal(a[1..], a[1..]);
      if b != [] {
        BytesTotal(a[1..], b[1..]);
        if a[0] == b[0] && a[1..] == b[1..] {
          assert a == [a[0]] + a[1..] && b == [b[0]] + b[1..];
        }
      }
    }
  }

  lemma {:induction false} BytesTransitive(a: Str, b: Str, c: Str)
    requires LessBytes(a, b) && LessBytes(b, c)
    ensures LessBytes(a, c)
    decreases |a|
  {
    if a != [] && a[0] == b[0] && b[0] == c[0] {
      BytesTransitive(a[1..], b[1..], c[1..]);
    }
  }

  /** The order on constants is total: exactly one of less, equal and greater holds. Ints come before strings. */
  lemma TotalOrder(a: Value, b: Value)
    ensures Less(a, b) || a == b || Less(b, a)
    ensures !Less(a, a) && !(Less(a, b) && Less(b, a))
    ensures Greater(a, b) <==> Less(b, a)
    ensures a.IntVal? && b.IntVal? ==> (Less(a, b) <==> a.i < b.i)
    ensures a.IntVal? && b.StrVal? ==> Less(a, b)
  {
    if a.StrVal? {
      BytesTotal(a.s, a.s);
      if b.StrVal? {
        BytesTotal(a.s, b.s);
      }
    }
  }

  lemma TransitiveOrder(a: Value, b: Value, c: Value)
    requires LessEq(a, b) && LessEq(b, c)
    ensures LessEq(a, c)
    ensures Less(a, b) || Less(b, c) ==> Less(a, c)
  {
    if a.StrVal? && b.StrVal? && c.StrVal? && Less(a, b) && Less(b, c) {
      BytesTransitive(a.s, b.s, c.s);
    }
  }

  /** A proper prefix, or the smaller byte at the first difference. */
  ghost predicate SmallerBytes(a: Str, b: Str) {
    exists k :: 0 <= k <= |a| && k < |b| && a[..k] == b[..k] && (k < |a| ==> a[k] < b[k])
  }

  /** What smaller means: ints by value, strings byte by byte, and an int below a string. */
  ghost predicate Smaller(x: Value, y: Value) {
    || (x.IntVal? && y.IntVal? && x.i < y.i)
    || (x.IntVal? && y.StrVal?)
    || (x.StrVal? && y.StrVal? && SmallerBytes(x.s, y.s))
  }

  lemma {:induction false} BytesMeaning(a: Str, b: Str)
    ensures LessBytes(a, b) <==> SmallerBytes(a, b)
    decreases |a|
  {
    if b != [] && a == [] {
      assert a[..0] == b[..0];
    } else if b != [] && a[0] == b[0] {
      BytesMeaning(a[1..], b[1..]);
      if SmallerBytes(a[1..], b[1..]) {
        var k :| 0 <= k <= |a[1..]| && k < |b[1..]| && a[1..][..k] == b[1..][..k]
                 && (k < |a[1..]| ==> a[1..][k] < b[1..][k]);
        assert a[..k + 1] == [a[0]] + a[1..][..k] && b[..k + 1] == [b[0]] + b[1..][..k];
      }
      if SmallerBytes(a, b) {
        var k :| 0 <= k <= |a| && k < |b| && a[..k] == b[..k] && (k < |a| ==> a[k] < b[k]);
        assert k > 0 && a[1..][..k - 1] == a[..k][1..] && b[1..][..k - 1] == b[..k][1..];
      }
    } else if b != [] {
      FirstDiffers(a, b);
    }
  }

  lemma FirstDiffers(a: Str, b: Str)
    requires a != [] && b != [] && a[0] != b[0]
    ensures SmallerBytes(a, b) <==> a[0] < b[0]
  {
    assert a[..0] == b[..0];
    if SmallerBytes(a, b) {
      var k :| 0 <= k <= |a| && k < |b| && a[..k] == b[..k] && (k < |a| ==> a[k] < b[k]);
      SameFirst(a, b, k);
    }
  }

  lemma SameFirst(a: Str, b: Str, k: nat)
    requires k <= |a| && k <= |b|
    ensures k > 0 && a[..k] == b[..k] ==> a[0] == b[0]
  {
    assert k > 0 ==> a[..k][0] == a[0] && b[..k][0] == b[0];
  }

  /** The comparison of constants decides it. */
  lemma OrderMeaning(x: Value, y: Value)
    ensures Less(x, y) <==> Smaller(x, y)
    ensures LessEq(x, y) <==> x == y || Smaller(x, y)
  {
    if x.StrVal? && y.StrVal? {
      BytesMeaning(x.s, y.s);
    }
  }

  // ---------------------------------------------------------------------------------------------
  // Records
  // ---------------------------------------------------------------------------------------------

  type Row = map<Str, Value>

  predicate HasFields(r: Row, fields: seq<Str>) {
    forall f | f in fields :: f in r
  }

  /** `RecordComparator::compare`. */
  function Compare(fields: seq<Str>, a: Row, b: Row): int
    requires HasFields(a, fields) && HasFields(b, fields)
  {
    if fields == [] then 0
    else if Greater(a[fields[0]], b[fields[0]]) then 1
    else if Less(a[fields[0]], b[fields[0]]) then -1
    else Compare(fields[1..], a, b)
  }

  /** `a` may stand before `b` in sorted order. */
  predicate Before(fields: seq<Str>, a: Row, b: Row) {
    HasFields(a, fields) && HasFields(b, fields) && Compare(fields, a, b) <= 0
  }

  lemma {:induction false} CompareSwaps(fields: seq<Str>, a: Row, b: Row)
    requires HasFields(a, fields) && HasFields(b, fields)
    ensures Compare(fields, a, b) == -Compare(fields, b, a)
    ensures Compare(fields, a, b) == 0 <==> forall f | f in fields :: a[f] == b[f]
  {
    if fields != [] {
      TotalOrder(a[fields[0]], b[fields[0]]);
      TotalOrder(b[fields[0]], a[fields[0]]);
      CompareSwaps(fields[1..], a, b);
      assert fields == [fields[0]] + fields[1..];
    }
  }

  lemma {:induction false} BeforeTransitive(fields: seq<Str>, a: Row, b: Row, c: Row)
    requires Before(fields, a, b) && Before(fields, b, c)
    ensures Before(fields, a, c)
    ensures Compare(fields, a, b) < 0 || Compare(fields, b, c) < 0 ==> Compare(fields, a, c) < 0
  {
    if fields != [] {
      var f := fields[0];
      TotalOrder(a[f], b[f]);
      TotalOrder(b[f], c[f]);
      TotalOrder(a[f], c[f]);
      TransitiveOrder(a[f], b[f], c[f]);
      if a[f] == b[f] && b[f] == c[f] {
        BeforeTransitive(fields[1..], a, b, c);
      }
    }
  }

  ghost predicate AllHave(rows: seq<Row>, fields: seq<Str>) {
    forall r | r in rows :: HasFields(r, fields)
  }

  ghost predicate Sorted(fields: seq<Str>, rows: seq<Row>) {
    forall i, j | 0 <= i < j < |rows| :: Before(fields, rows[i], rows[j])
  }

  /** At the first of the fields where two records differ, the first one has the smaller value. */
  ghost predicate FirstSmaller(fields: seq<Str>, a: Row, b: Row)
    requires HasFields(a, fields) && HasFields(b, fields)
  {
    exists k :: 0 <= k < |fields| && (forall j | 0 <= j < k :: a[fields[j]] == b[fields[j]])
                && Smaller(a[fields[k]], b[fields[k]])
  }

  /** The two records agree on the fields, or the first one has the smaller value where they first differ. */
  ghost predicate AgreeOrSmaller(fields: seq<Str>, a: Row, b: Row) {
    && (forall f | f in fields :: f in a && f in b)
    && ((forall f | f in fields :: a[f] == b[f]) || FirstSmaller(fields, a, b))
  }

  ghost predicate InSortOrder(fields: seq<Str>, rows: seq<Row>) {
    forall i, j | 0 <= i < j < |rows| :: AgreeOrSmaller(fields, rows[i], rows[j])
  }

  lemma CompareMeaning(fields: seq<Str>, a: Row, b: Row)
    requires HasFields(a, fields) && HasFields(b, fields)
    ensures Compare(fields, a, b) < 0 <==> FirstSmaller(fields, a, b)
    ensures Compare(fields, a, b) == 0 <==> forall f | f in fields :: a[f] == b[f]
    ensures Compare(fields, a, b) > 0 <==> FirstSmaller(fields, b, a)
  {
    CompareSwaps(fields, a, b);
    LessMeaning(fields, a, b);
    LessMeaning(fields, b, a);
  }

  lemma {:induction false} LessMeaning(fields: seq<Str>, a: Row, b: Row)
    requires HasFields(a, fields) && HasFields(b, fields)
    ensures Compare(fields, a, b) < 0 <==> FirstSmaller(fields, a, b)
  {
    hide Smaller, Less;
    if fields != [] {
      var x, y, rest := a[fields[0]], b[fields[0]], fields[1..];
      TotalOrder(x, y);
      OrderMeaning(x, y);
      LessMeaning(rest, a, b);
      if FirstSmaller(rest, a, b) && x == y {
        var k :| 0 <= k < |rest| && (forall j | 0 <= j < k :: a[rest[j]] == b[rest[j]])
                 && Smaller(a[rest[k]], b[rest[k]]);
        assert forall j | 0 <= j < k + 1 :: a[fields[j]] == b[fields[j]] by {
          assert forall j | 1 <= j < k + 1 :: fields[j] == rest[j - 1];
        }
        assert Smaller(a[fields[k + 1]], b[fields[k + 1]]);
      }
      if FirstSmaller(fields, a, b) {
        var k :| 0 <= k < |fields| && (forall j | 0 <= j < k :: a[fields[j]] == b[fields[j]])
                 && Smaller(a[fields[k]], b[fields[k]]);
        if k > 0 {
          assert a[fields[0]] == b[fields[0]];
          assert forall j | 0 <= j < k - 1 :: rest[j] == fields[j + 1];
          assert Smaller(a[rest[k - 1]], b[rest[k - 1]]);
        }
      }
    }
  }

  lemma BeforeMeaning(fields: seq<Str>, a: Row, b: Row)
    ensures Before(fields, a, b) <==> AgreeOrSmaller(fields, a, b)
  {
    if HasFields(a, fields) && HasFields(b, fields) {
      CompareMeaning(fields, a, b);
    }
  }

  /** A sorted list is one in sort order. */
  lemma SortedMeaning(fields: seq<Str>, rows: seq<Row>)
    ensures Sorted(fields, rows) <==> InSortOrder(fields, rows)
  {
    hide Before, AgreeOrSmaller;
    forall i, j | 0 <= i < j < |rows|
      ensures Before(fields, rows[i], rows[j]) <==> AgreeOrSmaller(fields, rows[i], rows[j])
    {
      BeforeMeaning(fields, rows[i], rows[j]);
    }
  }
}

/**
 `Parser`: the recursive descent over one lexer, and the printing loops.
 */
module Parsers {
  import opened Types
  import opened Queries
  import opened Lexing
  import opened Printing

  /** A result of `None` is the exception that the source throws. */
  predicate Does<T(==)>(p: Parsed<T>, r: Option<T>, now: Lex) {
    match p
    case None => r.None?
    case Some((x, l)) => r == Some(x) && now == l
  }

  class Parser {
    const lex: Lexer

    ghost predicate Valid()
      reads lex
    {
      lex.Valid()
    }

    constructor (s: Str)
      ensures Valid() && fresh(lex) && lex.Now() == Next(s)
    {
      lex := new Lexer(s);
    }

    method EatToken()
      requires Valid()
      modifies lex
      ensures Valid() && lex.Now() == Next(old(lex.Now().rest))
    {
      lex.NextToken();
    }

    method TakeId() returns (r: Option<Str>)
      requires Valid()
      modifies lex
      ensures Valid() && Does(EatId(old(lex.Now())), r, lex.Now())
    {
      match lex.token {
        case Some(Id(w)) =>
          EatToken();
          r := Some(w);
        case _ =>
          r := None;
      }
    }

    method MatchDelim(d: byte) returns (ok: bool)
      requires Valid()
      ensures ok <==> EatDelim(lex.Now(), d).Some?
    {
      ok := lex.token == Some(Delim(d));
    }

    method TakeDelim(d: byte) returns (ok: bool)
      requires Valid()
      modifies lex
      ensures Valid() && (ok <==> EatDelim(old(lex.Now()), d).Some?)
      ensures ok ==> lex.Now() == EatDelim(old(lex.Now()), d).value
    {
      ok := MatchDelim(d);
      if ok {
        EatToken();
      }
    }

    method MatchKeyword(w: Str) returns (ok: bool)
      requires Valid()
      ensures ok <==> EatKeyword(lex.Now(), w).Some?
    {
      ok := lex.token == Some(Keyword(w));
    }

    method TakeKeyword(w: Str) returns (ok: bool)
      requires Valid()
      modifies lex
      ensures Valid() && (ok <==> EatKeyword(old(lex.Now()), w).Some?)
      ensures ok ==> lex.Now() == EatKeyword(old(lex.Now()), w).value
    {
      ok := MatchKeyword(w);
      if ok {
        EatToken();
      }
    }

    method Constant() returns (r: Option<Value>)
      requires Valid()
      modifies lex
      ensures Valid() && Does(ParseConstant(old(lex.Now())), r, lex.Now())
    {
      match lex.token {
        case Some(StringConstant(s)) =>
          EatToken();
          r := Some(StrVal(s));
        case Some(IntConstant(n)) =>
          EatToken();
          r := Some(IntVal(n));
        case _ =>
          r := None;
      }
    }

    method ParseExpr() returns (r: Option<Expression>)
      requires Valid()
      modifies lex
      ensures Valid() && Does(ParseExpression(old(lex.Now())), r, lex.Now())
    {
      if lex.token.Some? && lex.token.value.Id? {
        var f := TakeId();
        return Some(Field(f.value));
      }
      var c := Constant();
      r := if c.Some? then Some(Const(c.value)) else None;
    }

    method OneTerm() returns (r: Option<Term>)
      requires Valid()
      modifies lex
      ensures Valid() && Does(ParseTerm(old(lex.Now())), r, lex.Now())
    {
      hide Next, ParseExpression;
      var lhs := ParseExpr();
      if lhs.None? {
        return None;
      }
      var eq := TakeDelim(EQUALS);
      if !eq {
        return None;
      }
      var rhs := ParseExpr();
      r := if rhs.Some? then Some(Term(lhs.value, rhs.value)) else None;
    }

    method Predicate() returns (r: Option<Pred>)
      requires Valid()
      modifies lex
      ensures Valid() && Does(ParsePredicate(old(lex.Now())), r, lex.Now())
      decreases |lex.chars| - lex.i
    {
      hide Next, ParseTerm;
      var t := OneTerm();
      if t.None? {
        return None;
      }
      var pred: Pred := [t.value];
      var more := MatchKeyword(AND);
      if more {
        more := TakeKeyword(AND);
        var rest := Predicate();
        if rest.None? {
          return None;
        }
        pred := pred + rest.value;
      }
      r := Some(pred);
    }

    /** `select_list` and `table_list`. */
    method NameList() returns (r: Option<seq<Str>>)
      requires Valid()
      modifies lex
      ensures Valid() && Does(ParseNames(old(lex.Now())), r, lex.Now())
      decreases |lex.chars| - lex.i
    {
      var w := TakeId();
      if w.None? {
        return None;
      }
      var l := [w.value];
      var more := MatchDelim(COMMA);
      if more {
        more := TakeDelim(COMMA);
        var rest := NameList();
        if rest.None? {
          return None;
        }
        l := l + rest.value;
      }
      r := Some(l);
    }

    method Query() returns (r: Option<QueryData>)
      requires Valid()
      modifies lex
      ensures Valid() && Does(ParseQuery(old(lex.Now())), r, lex.Now())
    {
      hide Next, ParseNames, ParsePredicate;
      var ok := TakeKeyword(SELECT);
      if !ok {
        return None;
      }
      var fields := NameList();
      if fields.None? {
        return None;
      }
      ok := TakeKeyword(FROM);
      if !ok {
        return None;
      }
      var tables := NameList();
      if tables.None? {
        return None;
      }
      var pred := Some([]);
      ok := MatchKeyword(WHERE);
      if ok {
        ok := TakeKeyword(WHERE);
        pred := Predicate();
        if pred.None? {
          return None;
        }
      }
      r := Some(QueryData(fields.value, tables.value, pred.value));
    }
  }

  // ---------------------------------------------------------------------------------------------
  // The printing loops
  // ---------------------------------------------------------------------------------------------

  lemma NamesFrom(names: seq<Str>, k: nat)
    requires k < |names|
    ensures PrintNames(names[k..]) ==
            names[k] + if k + 1 < |names| then COMMA_SPACE + PrintNames(names[k + 1..]) else []
  {
    assert names[k..][1..] == names[k + 1..];
  }

  method ListToString(names: seq<Str>) returns (result: Str)
    ensures result == PrintNames(names)
  {
    result := [];
    for i := 0 to |names|
      invariant if i == 0 then result == [] else if i == |names| then result == PrintNames(names)
                else result + COMMA_SPACE + PrintNames(names[i..]) == PrintNames(names)
    {
      NamesFrom(names, i);
      assert i == 0 ==> names[i..] == names;
      if i > 0 {
        result := result + COMMA_SPACE;
      }
      result := result + names[i];
    }
  }

  lemma PredicateFrom(pred: Pred, k: nat)
    requires k < |pred|
    ensures PrintPredicate(pred[k..]) ==
            PrintTerm(pred[k]) + if k + 1 < |pred| then AND_WORD + PrintPredicate(pred[k + 1..]) else []
  {
    assert pred[k..][1..] == pred[k + 1..];
  }

  method PredicateToString(pred: Pred) returns (result: Str)
    ensures result == PrintPredicate(pred)
  {
    if pred == [] {
      return [];
    }
    hide PrintTerm, PrintPredicate;
    result := PrintTerm(pred[0]);
    PredicateFrom(pred, 0);
    assert pred[0..] == pred;
    for i := 1 to |pred|
      invariant result + (if i < |pred| then AND_WORD + PrintPredicate(pred[i..]) else []) == PrintPredicate(pred)
    {
      PredicateFrom(pred, i);
      result := result + (AND_WORD + PrintTerm(pred[i]));
    }
  }

  /** `QueryData::to_string`. */
  method QueryToString(q: QueryData) returns (result: Str)
    ensures result == PrintQuery(q)
  {
    hide PrintNames, PrintPredicate;
    result := SELECT_WORD;
    var fields := ListToString(q.fields);
    result := result + fields;
    result := result + FROM_WORD;
    var tables := ListToString(q.tables);
    result := result + tables;
    var predstr := PredicateToString(q.pred);
    if predstr != [] {
      result := result + (WHERE_WORD + predstr);
    }
  }

  /** Creating a view and reading it back: the stored text is parsed to the same query, or it has a string constant. */
  method StoreAndReadView(text: Str) returns (first: Option<QueryData>, again: Option<QueryData>)
    ensures first.Some? ==> (again == first <==> HasNoString(first.value.pred))
  {
    hide Next, ParseQuery, PrintQuery;
    var parser := new Parser(text);
    first := parser.Query();
    if first.None? {
      return None, None;
    }
    var viewdef := QueryToString(first.value);
    var parser2 := new Parser(viewdef);
    again := parser2.Query();
    ViewRoundTrip(text);
  }
}

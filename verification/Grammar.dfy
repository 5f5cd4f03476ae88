/**
 What the parser accepts, said on the tokens that the lexer delivers: a text is the query if and only if its tokens
 are those of the query.
 */
module Grammar {
  import opened Types
  import opened Queries
  import opened Lexing
  import opened Printing
  import opened LexMeaning

  // ---------------------------------------------------------------------------------------------
  // The tokens of a query
  // ---------------------------------------------------------------------------------------------

  function Word(s: string): Token
    requires forall k | 0 <= k < |s| :: s[k] < 128 as char
  {
    Keyword(Ascii(s))
  }

  function SideToken(e: Expression): Token {
    match e
    case Const(IntVal(i)) => IntConstant(i)
    case Const(StrVal(s)) => StringConstant(s)
    case Field(f) => Id(f)
  }

  function TermTokens(t: Term): seq<Token> {
    [SideToken(t.lhs), Delim(61), SideToken(t.rhs)]
  }

  /** Names with commas between them. */
  function NameTokens(names: seq<Str>): seq<Token> {
    if names == [] then []
    else [Id(names[0])] + if |names| == 1 then [] else [Delim(44)] + NameTokens(names[1..])
  }

  /** Terms with the word and between them. */
  function PredicateTokens(pred: Pred): seq<Token> {
    if pred == [] then []
    else TermTokens(pred[0]) + if |pred| == 1 then [] else [Word("and")] + PredicateTokens(pred[1..])
  }

  function WhereTokens(pred: Pred): seq<Token> {
    if pred == [] then [] else [Word("where")] + PredicateTokens(pred)
  }

  /** select names from names where terms; without terms the last part is missing. */
  function QueryTokens(q: QueryData): seq<Token> {
    [Word("select")] + (NameTokens(q.fields) + ([Word("from")] + (NameTokens(q.tables) + WhereTokens(q.pred))))
  }

  /** The lexer behind these tokens, or nothing if other tokens come. */
  function After(l: Lex, tokens: seq<Token>): Option<Lex>
    decreases |tokens|
  {
    if tokens == [] then Some(l)
    else if l.token != Some(tokens[0]) then None
    else After(Next(l.rest), tokens[1..])
  }

  lemma {:induction false} AfterBoth(l: Lex, a: seq<Token>, b: seq<Token>)
    ensures After(l, a + b) == match After(l, a) case None => None case Some(l1) => After(l1, b)
    decreases |a|
  {
    hide Next;
    if a == [] {
      assert a + b == b;
    } else {
      assert (a + b)[0] == a[0] && (a + b)[1..] == a[1..] + b;
      if l.token == Some(a[0]) {
        AfterBoth(Next(l.rest), a[1..], b);
      }
    }
  }

  lemma AfterOne(l: Lex, t: Token, rest: seq<Token>)
    ensures After(l, [t] + rest) == if l.token == Some(t) then After(Next(l.rest), rest) else None
  {
    assert ([t] + rest)[1..] == rest;
  }

  // ---------------------------------------------------------------------------------------------
  // The parts
  // ---------------------------------------------------------------------------------------------

  lemma ExpressionIff(l: Lex, e: Expression, l': Lex)
    ensures ParseExpression(l) == Some((e, l')) <==> l.token == Some(SideToken(e)) && l' == Next(l.rest)
  {
    hide Next;
  }

  lemma TermIff(l: Lex, t: Term, l': Lex)
    ensures ParseTerm(l) == Some((t, l')) <==> After(l, TermTokens(t)) == Some(l')
  {
    hide Next, ParseExpression, SideToken;
    var l1 := Next(l.rest);
    var l2 := Next(l1.rest);
    var l3 := Next(l2.rest);
    AfterOne(l, SideToken(t.lhs), [Delim(61), SideToken(t.rhs)]);
    AfterOne(l1, Delim(61), [SideToken(t.rhs)]);
    AfterOne(l2, SideToken(t.rhs), []);
    assert TermTokens(t) == [SideToken(t.lhs)] + ([Delim(61)] + ([SideToken(t.rhs)] + []));
    ExpressionIff(l, t.lhs, l1);
    ExpressionIff(l2, t.rhs, l3);
    var p, q := ParseExpression(l), ParseExpression(l2);
    if p.Some? {
      ExpressionIff(l, p.value.0, p.value.1);
    }
    if q.Some? {
      ExpressionIff(l2, q.value.0, q.value.1);
    }
  }

  lemma NamesSome(l: Lex)
    ensures var p := ParseNames(l); p.Some? ==> p.value.0 != []
  {}

  lemma {:induction false} NamesIff(l: Lex, names: seq<Str>, l': Lex)
    requires names != []
    ensures ParseNames(l) == Some((names, l')) <==>
            After(l, NameTokens(names)) == Some(l') && l'.token != Some(Delim(44))
    decreases |names|
  {
    hide Next;
    var l1 := Next(l.rest);
    var p := ParseNames(Next(l1.rest));
    NamesSome(Next(l1.rest));
    assert [names[0]] + names[1..] == names;
    if EatId(l).Some? {
      var w := EatId(l).value.0;
      assert [w][0] == w;
      assert p.Some? ==> ([w] + p.value.0)[0] == w && ([w] + p.value.0)[1..] == p.value.0;
    }
    if |names| == 1 {
      assert names == [names[0]];
      assert NameTokens(names) == [Id(names[0])] + [];
      AfterOne(l, Id(names[0]), []);
    } else {
      AfterOne(l, Id(names[0]), [Delim(44)] + NameTokens(names[1..]));
      AfterOne(l1, Delim(44), NameTokens(names[1..]));
      NamesIff(Next(l1.rest), names[1..], l');
    }
  }

  lemma PredicateSome(l: Lex)
    ensures var p := ParsePredicate(l); p.Some? ==> p.value.0 != []
  {}

  lemma {:induction false} PredicateIff(l: Lex, pred: Pred, l': Lex)
    requires pred != []
    ensures ParsePredicate(l) == Some((pred, l')) <==>
            After(l, PredicateTokens(pred)) == Some(l') && l'.token != Some(Word("and"))
    decreases |pred|
  {
    hide Next, ParseTerm, Ascii, TermTokens;
    Words1();
    var t, more := pred[0], if |pred| == 1 then [] else [Word("and")] + PredicateTokens(pred[1..]);
    AfterBoth(l, TermTokens(t), more);
    var first := After(l, TermTokens(t));
    assert [t] + pred[1..] == pred;
    if first.None? {
      FirstTerm(l, t);
    } else {
      var l1 := first.value;
      TermIff(l, t, l1);
      assert [t][0] == t;
      var p := ParsePredicate(Next(l1.rest));
      PredicateSome(Next(l1.rest));
      if p.Some? {
        assert ([t] + p.value.0)[1..] == p.value.0;
      }
      if |pred| == 1 {
        assert pred == [t];
      } else {
        AfterOne(l1, Word("and"), PredicateTokens(pred[1..]));
        PredicateIff(Next(l1.rest), pred[1..], l');
      }
    }
  }

  /** A predicate begins with its first term. */
  lemma FirstTerm(l: Lex, t: Term)
    requires After(l, TermTokens(t)).None?
    ensures var p := ParsePredicate(l); p.Some? ==> p.value.0 != [] && p.value.0[0] != t
  {
    hide Next, TermTokens;
    var p := ParseTerm(l);
    if p.Some? {
      TermIff(l, p.value.0, p.value.1);
      var rest := ParsePredicate(Next(p.value.1.rest));
      assert [p.value.0][0] == p.value.0;
      assert rest.Some? ==> ([p.value.0] + rest.value.0)[0] == p.value.0;
    }
  }

  lemma WhereIff(l: Lex, pred: Pred, l': Lex)
    ensures ParseWhere(l) == Some((pred, l')) <==>
            && After(l, WhereTokens(pred)) == Some(l')
            && l'.token != Some(if pred == [] then Word("where") else Word("and"))
  {
    hide Next, ParsePredicate, Ascii, PredicateTokens;
    Words1();
    PredicateSome(Next(l.rest));
    if pred != [] {
      AfterOne(l, Word("where"), PredicateTokens(pred));
      PredicateIff(Next(l.rest), pred, l');
    }
  }

  // ---------------------------------------------------------------------------------------------
  // Queries
  // ---------------------------------------------------------------------------------------------

  /** What follows the query does not continue it. */
  predicate Ends(q: QueryData, l: Lex) {
    if q.pred == [] then l.token != Some(Delim(44)) && l.token != Some(Word("where")) else l.token != Some(Word("and"))
  }

  lemma FromIff(l: Lex, fields: seq<Str>, q: QueryData, l': Lex)
    requires q.fields == fields
    ensures ParseFrom(l, fields) == Some((q, l')) <==>
            && q.tables != []
            && After(l, [Word("from")] + (NameTokens(q.tables) + WhereTokens(q.pred))) == Some(l')
            && Ends(q, l')
  {
    hide Next, ParseNames, ParseWhere, Ascii, NameTokens, PredicateTokens;
    Words1();
    var l1 := Next(l.rest);
    NamesSome(l1);
    if q.tables != [] {
      AfterOne(l, Word("from"), NameTokens(q.tables) + WhereTokens(q.pred));
      AfterBoth(l1, NameTokens(q.tables), WhereTokens(q.pred));
      var p, a := ParseNames(l1), After(l1, NameTokens(q.tables));
      if p.Some? {
        NamesIff(l1, q.tables, p.value.1);
        WhereIff(p.value.1, q.pred, l');
      }
      if a.Some? {
        NamesIff(l1, q.tables, a.value);
        WhereIff(a.value, q.pred, l');
        AfterOne(a.value, Word("where"), PredicateTokens(q.pred));
      }
    }
  }

  /** A text is parsed as a query if and only if the tokens of the query come, and what follows does not continue it. */
  lemma QueryIff(l: Lex, q: QueryData, l': Lex)
    ensures ParseQuery(l) == Some((q, l')) <==>
            && q.fields != [] && q.tables != []
            && After(l, QueryTokens(q)) == Some(l')
            && Ends(q, l')
  {
    hide Next, ParseNames, ParseFrom, Ascii, NameTokens, WhereTokens, Ends;
    Words1();
    var l1 := Next(l.rest);
    NamesSome(l1);
    var p, a := ParseNames(l1), After(l1, NameTokens(q.fields));
    if p.Some? {
      SameFields(p.value.1, p.value.0);
    }
    if q.fields != [] {
      var rest := [Word("from")] + (NameTokens(q.tables) + WhereTokens(q.pred));
      AfterOne(l, Word("select"), NameTokens(q.fields) + rest);
      AfterBoth(l1, NameTokens(q.fields), rest);
      if p.Some? && p.value.0 == q.fields {
        NamesIff(l1, q.fields, p.value.1);
        FromIff(p.value.1, q.fields, q, l');
      }
      if a.Some? {
        NamesIff(l1, q.fields, a.value);
        FromIff(a.value, q.fields, q, l');
        AfterOne(a.value, Word("from"), NameTokens(q.tables) + WhereTokens(q.pred));
      }
    }
  }

  lemma SameFields(l: Lex, fields: seq<Str>)
    ensures var p := ParseFrom(l, fields); p.Some? ==> p.value.0.fields == fields
  {}

  // ---------------------------------------------------------------------------------------------
  // The printed text
  // ---------------------------------------------------------------------------------------------

  /** The text of a query with two fields, two tables and two terms, letter by letter but for the parts in it. */
  lemma QuerySpelling(f: Str, g: Str, t: Str, u: Str, a: Term, b: Term)
    ensures var fields, tables := f + Ascii(", ") + g, t + Ascii(", ") + u;
            var terms := Equation(a) + Ascii(" and ") + Equation(b);
            PrintQuery(QueryData([f, g], [t, u], [a, b])) ==
              Ascii("select ") + (fields + (Ascii(" from ") + (tables + (Ascii(" where ") + terms))))
    ensures PrintQuery(QueryData([f], [t], [])) == Ascii("select ") + (f + (Ascii(" from ") + (t + [])))
  {
    hide PrintExpression;
    Spelling();
    hide Ascii;
    assert [f, g][1..] == [g] && [t, u][1..] == [u] && [a, b][1..] == [b];
    assert PrintNames([g]) == g && PrintNames([u]) == u;
    assert PrintNames([f, g]) == f + COMMA_SPACE + g;
    assert PrintNames([t, u]) == t + COMMA_SPACE + u;
    assert PrintPredicate([a, b]) == PrintTerm(a) + AND_WORD + PrintTerm(b);
  }

  function Equation(t: Term): Str {
    PrintExpression(t.lhs) + Ascii("=") + PrintExpression(t.rhs)
  }

  lemma Spelling()
    ensures Ascii("select ") == SELECT_WORD && Ascii(" from ") == FROM_WORD
    ensures Ascii(" where ") == WHERE_WORD && Ascii(" and ") == AND_WORD
    ensures Ascii(", ") == COMMA_SPACE && Ascii("=") == [EQUALS]
  {}
}

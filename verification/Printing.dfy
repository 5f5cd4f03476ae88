/**
 Printing a query, parsing it again, and when the two undo each other.
 */
module Printing {
  import opened Types
  import opened Queries
  import opened Lexing

  // ---------------------------------------------------------------------------------------------
  // The grammar, as functions on the state of the lexer; nothing stands for a syntax error
  // ---------------------------------------------------------------------------------------------

  type Parsed<T> = Option<(T, Lex)>

  function EatId(l: Lex): (p: Parsed<Str>)
    ensures p.Some? ==> p.value.1 == Next(l.rest)
  {
    match l.token
    case Some(Id(w)) => Some((w, Next(l.rest)))
    case _ => None
  }

  function EatDelim(l: Lex, d: byte): Option<Lex> {
    if l.token == Some(Delim(d)) then Some(Next(l.rest)) else None
  }

  function EatKeyword(l: Lex, w: Str): Option<Lex> {
    if l.token == Some(Keyword(w)) then Some(Next(l.rest)) else None
  }

  function ParseConstant(l: Lex): (p: Parsed<Value>)
    ensures p.Some? ==> p.value.1 == Next(l.rest)
  {
    match l.token
    case Some(StringConstant(s)) => Some((StrVal(s), Next(l.rest)))
    case Some(IntConstant(n)) => Some((IntVal(n), Next(l.rest)))
    case _ => None
  }

  function ParseExpression(l: Lex): (p: Parsed<Expression>)
    ensures p.Some? ==> p.value.1 == Next(l.rest)
  {
    match EatId(l)
    case Some((f, l')) => Some((Field(f), l'))
    case None =>
      match ParseConstant(l)
      case Some((v, l')) => Some((Const(v), l'))
      case None => None
  }

  function ParseTerm(l: Lex): (p: Parsed<Term>)
    ensures p.Some? ==> |p.value.1.rest| < |l.rest|
  {
    match ParseExpression(l)
    case None => None
    case Some((lhs, l1)) =>
      match EatDelim(l1, EQUALS)
      case None => None
      case Some(l2) =>
        match ParseExpression(l2)
        case None => None
        case Some((rhs, l3)) => Some((Term(lhs, rhs), l3))
  }

  function ParsePredicate(l: Lex): Parsed<Pred>
    decreases |l.rest|
  {
    match ParseTerm(l)
    case None => None
    case Some((t, l1)) =>
      match EatKeyword(l1, AND)
      case None => Some(([t], l1))
      case Some(l2) =>
        match ParsePredicate(l2)
        case None => None
        case Some((rest, l3)) => Some(([t] + rest, l3))
  }

  /** `select_list` and `table_list`. */
  function ParseNames(l: Lex): Parsed<seq<Str>>
    decreases |l.rest|
  {
    match EatId(l)
    case None => None
    case Some((w, l1)) =>
      match EatDelim(l1, COMMA)
      case None => Some(([w], l1))
      case Some(l2) =>
        match ParseNames(l2)
        case None => None
        case Some((rest, l3)) => Some(([w] + rest, l3))
  }

  function ParseWhere(l: Lex): Parsed<Pred> {
    match EatKeyword(l, WHERE)
    case None => Some(([], l))
    case Some(l1) => ParsePredicate(l1)
  }

  function ParseFrom(l: Lex, fields: seq<Str>): Parsed<QueryData> {
    match EatKeyword(l, FROM)
    case None => None
    case Some(l1) =>
      match ParseNames(l1)
      case None => None
      case Some((tables, l2)) =>
        match ParseWhere(l2)
        case None => None
        case Some((pred, l3)) => Some((QueryData(fields, tables, pred), l3))
  }

  function ParseQuery(l: Lex): Parsed<QueryData> {
    match EatKeyword(l, SELECT)
    case None => None
    case Some(l1) =>
      match ParseNames(l1)
      case None => None
      case Some((fields, l2)) => ParseFrom(l2, fields)
  }

  // ---------------------------------------------------------------------------------------------
  // Printing
  // ---------------------------------------------------------------------------------------------

  /** `std::to_string` of a number that is not negative. */
  function Decimal(n: nat): (s: Str)
    ensures s != []
  {
    if n < 10 then [48 + n] else Decimal(n / 10) + [48 + n % 10]
  }

  function PrintInt(i: int32): Str {
    var n: int := i;
    if n < 0 then [MINUS] + Decimal(-n) else Decimal(n)
  }

  /** A string constant prints without quotes. */
  function PrintConstant(v: Value): Str {
    match v
    case IntVal(i) => PrintInt(i)
    case StrVal(s) => s
  }

  function PrintExpression(e: Expression): Str {
    match e
    case Const(v) => PrintConstant(v)
    case Field(f) => f
  }

  function PrintTerm(t: Term): Str {
    PrintExpression(t.lhs) + [EQUALS] + PrintExpression(t.rhs)
  }

  const AND_WORD: Str := [SPACE] + AND + [SPACE]
  const FROM_WORD: Str := [SPACE] + FROM + [SPACE]
  const WHERE_WORD: Str := [SPACE] + WHERE + [SPACE]
  const SELECT_WORD: Str := SELECT + [SPACE]
  const COMMA_SPACE: Str := [COMMA, SPACE]

  function PrintPredicate(pred: Pred): Str {
    if pred == [] then []
    else if |pred| == 1 then PrintTerm(pred[0])
    else PrintTerm(pred[0]) + AND_WORD + PrintPredicate(pred[1..])
  }

  function PrintNames(names: seq<Str>): Str {
    if names == [] then []
    else if |names| == 1 then names[0]
    else names[0] + COMMA_SPACE + PrintNames(names[1..])
  }

  function PrintWhere(pred: Pred): Str {
    var predstr := PrintPredicate(pred);
    if predstr == [] then [] else WHERE_WORD + predstr
  }

  /** `QueryData::to_string`. */
  function PrintQuery(q: QueryData): Str {
    SELECT_WORD + (PrintNames(q.fields) + (FROM_WORD + (PrintNames(q.tables) + PrintWhere(q.pred))))
  }

  // ---------------------------------------------------------------------------------------------
  // Single tokens
  // ---------------------------------------------------------------------------------------------

  /** A word as the lexer reads it: without capitals. */
  predicate IsWord(w: Str) {
    && w != [] && (forall k | 0 <= k < |w| :: IsWordChar(w[k], k == 0))
    && forall k | 0 <= k < |w| :: ToLower(w[k]) == w[k]
  }

  predicate IsName(w: Str) {
    IsWord(w) && w !in KEYWORDS
  }

  /** Nothing that would continue a word or a number. */
  predicate Stops(tail: Str) {
    tail == [] || !IsWordChar(tail[0], false)
  }

  lemma {:induction false} LowerSame(w: Str)
    requires forall k | 0 <= k < |w| :: ToLower(w[k]) == w[k]
    ensures LowerCase(w) == w
  {
    if w != [] {
      LowerSame(w[..|w| - 1]);
      assert w == w[..|w| - 1] + [w[|w| - 1]];
    }
  }

  lemma LexSpace(s: Str)
    ensures Next([SPACE] + s) == Next(s)
  {
    assert ([SPACE] + s)[1..] == s;
  }

  lemma LexWord(w: Str, tail: Str)
    requires IsWord(w) && Stops(tail)
    ensures Next(w + tail) == Lex(Some(WordToken(w)), tail)
  {
    var s := w + tail;
    assert s[0] == w[0] && IsWordChar(w[0], true);
    assert SkipSpace(s) == s;
    WordAt(s, true, |w|);
    DigitsAt(s, 0);
    assert s[..|w|] == w && s[|w|..] == tail;
    LowerSame(w);
  }

  lemma LexDelim(d: byte, tail: Str)
    requires d == COMMA || d == EQUALS
    ensures Next([d] + tail) == Lex(Some(Delim(d)), tail)
  {
    var s := [d] + tail;
    assert SkipSpace(s) == s && s[0] == d;
    DigitsAt(s, 0);
    WordAt(s, true, 0);
    assert s[1..] == tail;
  }

  lemma {:induction false} DecimalDigits(n: nat)
    ensures forall m | 0 <= m < |Decimal(n)| :: IsDigit(Decimal(n)[m])
    ensures DigitsValue(Decimal(n)) == n
  {
    if n >= 10 {
      DecimalDigits(n / 10);
      assert Decimal(n)[..|Decimal(n)| - 1] == Decimal(n / 10);
    } else {
      assert Decimal(n)[..0] == [];
    }
  }

  lemma DigitsEnd(n: nat, tail: Str)
    requires Stops(tail)
    ensures var s := Decimal(n) + tail; var k := |Decimal(n)|;
            DigitCount(s) == k && s[..k] == Decimal(n) && s[k..] == tail
  {
    DecimalDigits(n);
    DigitsAt(Decimal(n) + tail, |Decimal(n)|);
  }

  /** A number, with or without a sign, where the lexer looks for one. */
  lemma LexDigits(negative: bool, n: nat, tail: Str)
    requires Stops(tail)
    ensures Next((if negative then [MINUS] else []) + Decimal(n) + tail) == Lex(Some(NumberToken(n, negative)), tail)
  {
    hide WordCount, LowerCase, IndexOf, DigitsValue, Decimal, DigitCount;
    var digits := Decimal(n) + tail;
    var s := (if negative then [MINUS] else []) + Decimal(n) + tail;
    DecimalDigits(n);
    DigitsEnd(n, tail);
    if negative {
      assert s == [MINUS] + digits && s[1..] == digits;
    } else {
      assert s == digits && s[0] == Decimal(n)[0] && IsDigit(s[0]);
    }
    assert SkipSpace(s) == s;
  }

  /** Every int but the smallest one. */
  lemma LexInt(i: int32, tail: Str)
    requires i > -0x8000_0000 && Stops(tail)
    ensures Next(PrintInt(i) + tail) == Lex(Some(IntConstant(i)), tail)
  {
    hide Next, Decimal;
    var n: int := i;
    LexDigits(n < 0, if n < 0 then -n else n, tail);
    assert n >= 0 ==> [] + Decimal(n) == Decimal(n);
  }

  lemma KeywordsAreWords()
    ensures IsWord(SELECT) && IsWord(FROM) && IsWord(WHERE) && IsWord(AND)
    ensures SELECT in KEYWORDS && FROM in KEYWORDS && WHERE in KEYWORDS && AND in KEYWORDS
  {}

  /** A keyword between spaces. */
  lemma LexKeyword(w: Str, s: Str)
    requires IsWord(w) && w in KEYWORDS
    ensures Next(w + [SPACE] + s) == Lex(Some(Keyword(w)), [SPACE] + s)
    ensures Next([SPACE] + w + [SPACE] + s) == Lex(Some(Keyword(w)), [SPACE] + s)
    ensures Stops([SPACE] + w + [SPACE] + s)
    ensures Next([SPACE] + s) == Next(s)
  {
    hide Next, IsWord, Stops, IsWordChar;
    assert w + [SPACE] + s == w + ([SPACE] + s);
    CommaStops(s);
    CommaStops(w + [SPACE] + s);
    LexWord(w, [SPACE] + s);
    assert [SPACE] + w + [SPACE] + s == [SPACE] + (w + [SPACE] + s);
    LexSpace(w + [SPACE] + s);
    LexSpace(s);
  }

  lemma LexAnd(s: Str)
    ensures Next([SPACE] + AND + [SPACE] + s) == Lex(Some(Keyword(AND)), [SPACE] + s)
    ensures Stops([SPACE] + AND + [SPACE] + s)
    ensures Next([SPACE] + s) == Next(s)
  {
    KeywordsAreWords();
    LexKeyword(AND, s);
  }

  // ---------------------------------------------------------------------------------------------
  // From the text back to the query
  // ---------------------------------------------------------------------------------------------

  lemma {:induction false} NamesRoundTrip(names: seq<Str>, tail: Str)
    requires names != [] && (forall w | w in names :: IsName(w))
    requires Stops(tail) && Next(tail).token != Some(Delim(COMMA))
    ensures ParseNames(Next(PrintNames(names) + tail)) == Some((names, Next(tail)))
  {
    hide Next, IsWord, Stops;
    assert names[0] in names;
    if |names| == 1 {
      LexWord(names[0], tail);
      assert [names[0]] == names;
    } else {
      var more := PrintNames(names[1..]) + tail;
      assert PrintNames(names) + tail == names[0] + ([COMMA] + ([SPACE] + more));
      CommaStops([SPACE] + more);
      LexWord(names[0], [COMMA] + ([SPACE] + more));
      LexDelim(COMMA, [SPACE] + more);
      LexSpace(more);
      NamesRoundTrip(names[1..], tail);
      assert [names[0]] + names[1..] == names;
    }
  }

  lemma CommaStops(s: Str)
    ensures Stops([COMMA] + s) && Stops([EQUALS] + s) && Stops([SPACE] + s) && Stops([])
  {}

  predicate NameOf(e: Expression) {
    e.Field? ==> IsName(e.name)
  }

  /** No string, and not the smallest int. */
  predicate Prints(e: Expression) {
    e.Const? ==> e.val.IntVal? && e.val.i > -0x8000_0000
  }

  lemma ExpressionRoundTrip(e: Expression, tail: Str)
    requires NameOf(e) && Prints(e) && Stops(tail)
    ensures ParseExpression(Next(PrintExpression(e) + tail)) == Some((e, Next(tail)))
  {
    hide Next, IsWord, Stops;
    match e {
      case Field(f) => LexWord(f, tail);
      case Const(v) => LexInt(v.i, tail);
    }
  }

  lemma TermRoundTrip(t: Term, tail: Str)
    requires NameOf(t.lhs) && NameOf(t.rhs) && Prints(t.lhs) && Prints(t.rhs) && Stops(tail)
    ensures ParseTerm(Next(PrintTerm(t) + tail)) == Some((t, Next(tail)))
  {
    hide Next, IsWord, Stops, ParseExpression;
    var more := PrintExpression(t.rhs) + tail;
    assert PrintTerm(t) + tail == PrintExpression(t.lhs) + ([EQUALS] + more);
    CommaStops(more);
    ExpressionRoundTrip(t.lhs, [EQUALS] + more);
    LexDelim(EQUALS, more);
    ExpressionRoundTrip(t.rhs, tail);
  }

  predicate NamesOf(pred: Pred) {
    forall t | t in pred :: NameOf(t.lhs) && NameOf(t.rhs)
  }

  predicate PrintsAll(pred: Pred) {
    forall t | t in pred :: Prints(t.lhs) && Prints(t.rhs)
  }

  lemma Printed(pred: Pred, tail: Str)
    requires pred != []
    ensures |pred| == 1 ==> PrintPredicate(pred) == PrintTerm(pred[0]) && [pred[0]] == pred
    ensures |pred| > 1 ==>
              PrintPredicate(pred) + tail ==
              PrintTerm(pred[0]) + ([SPACE] + AND + [SPACE] + (PrintPredicate(pred[1..]) + tail))
    ensures [pred[0]] + pred[1..] == pred
  {
    hide PrintTerm;
    Regroup(PrintTerm(pred[0]), AND_WORD, PrintPredicate(pred[1..]), tail);
  }

  lemma Regroup(a: Str, b: Str, c: Str, d: Str)
    ensures a + b + c + d == a + (b + (c + d))
  {}

  lemma {:induction false} PredicateRoundTrip(pred: Pred, tail: Str)
    requires pred != [] && NamesOf(pred) && PrintsAll(pred)
    requires Stops(tail) && Next(tail).token != Some(Keyword(AND))
    ensures ParsePredicate(Next(PrintPredicate(pred) + tail)) == Some((pred, Next(tail)))
  {
    hide Next, IsWord, Stops, ParseTerm, PrintTerm, NameOf, Prints, PrintPredicate;
    assert pred[0] in pred;
    Printed(pred, tail);
    if |pred| == 1 {
      TermRoundTrip(pred[0], tail);
    } else {
      var more := PrintPredicate(pred[1..]) + tail;
      LexAnd(more);
      TermRoundTrip(pred[0], [SPACE] + AND + [SPACE] + more);
      PredicateRoundTrip(pred[1..], tail);
    }
  }

  /** A query that the grammar can express, with names that the lexer reads as names. */
  predicate WellNamed(q: QueryData) {
    && q.fields != [] && (forall w | w in q.fields :: IsName(w))
    && q.tables != [] && (forall w | w in q.tables :: IsName(w))
    && NamesOf(q.pred)
  }

  lemma PredicateText(pred: Pred)
    ensures PrintPredicate(pred) == [] <==> pred == []
  {}

  lemma NothingLeft()
    ensures Next([]) == Lex(None, []) && Stops([])
  {}

  lemma WhereText(pred: Pred)
    ensures Stops(PrintWhere(pred)) && Next(PrintWhere(pred)).token != Some(Delim(COMMA))
    ensures ParseWhere(Next(PrintWhere(pred))) ==
            if pred == [] then Some(([], Lex(None, []))) else ParsePredicate(Next(PrintPredicate(pred)))
  {
    hide Next, IsWord, Stops;
    PredicateText(pred);
    NothingLeft();
    if pred != [] {
      KeywordsAreWords();
      LexKeyword(WHERE, PrintPredicate(pred));
    }
  }

  function WithPred(q: QueryData, p: Parsed<Pred>): Parsed<QueryData> {
    match p
    case None => None
    case Some((pred, l)) => Some((QueryData(q.fields, q.tables, pred), l))
  }

  lemma FromText(q: QueryData)
    requires WellNamed(q)
    ensures var text := FROM_WORD + (PrintNames(q.tables) + PrintWhere(q.pred));
            && Stops(text) && Next(text).token != Some(Delim(COMMA))
            && ParseFrom(Next(text), q.fields) == WithPred(q, ParseWhere(Next(PrintWhere(q.pred))))
  {
    hide Next, IsWord, Stops, ParseWhere, PrintWhere, ParseNames;
    var more := PrintNames(q.tables) + PrintWhere(q.pred);
    WhereText(q.pred);
    KeywordsAreWords();
    LexKeyword(FROM, more);
    NamesRoundTrip(q.tables, PrintWhere(q.pred));
  }

  /** Everything in front of the predicate comes back as it was. */
  lemma QueryText(q: QueryData)
    requires WellNamed(q)
    ensures ParseQuery(Next(PrintQuery(q))) == WithPred(q, ParseWhere(Next(PrintWhere(q.pred))))
  {
    hide Next, IsWord, Stops, ParseFrom, ParseNames, PrintNames, ParseWhere, PrintWhere;
    var from := FROM_WORD + (PrintNames(q.tables) + PrintWhere(q.pred));
    KeywordsAreWords();
    LexKeyword(SELECT, PrintNames(q.fields) + from);
    FromText(q);
    NamesRoundTrip(q.fields, from);
  }

  /** Parsing what was printed gives the query back, with its terms in their order, and nothing is left over. */
  lemma RoundTrip(q: QueryData)
    requires WellNamed(q) && PrintsAll(q.pred)
    ensures ParseQuery(Next(PrintQuery(q))) == Some((q, Lex(None, [])))
  {
    hide Next, IsWord, Stops, ParseQuery, PrintQuery, ParseWhere, PrintWhere, ParsePredicate, PrintPredicate;
    QueryText(q);
    WhereText(q.pred);
    NothingLeft();
    if q.pred != [] {
      PredicateRoundTrip(q.pred, []);
      assert PrintPredicate(q.pred) + [] == PrintPredicate(q.pred);
    }
  }

  // ---------------------------------------------------------------------------------------------
  // Constants that do not come back
  // ---------------------------------------------------------------------------------------------

  /** What comes behind a constant in a printed query. */
  predicate Follows(tail: Str) {
    tail == [] || tail[0] == EQUALS || (|tail| > 1 && tail[0] == SPACE && tail[1] == AND[0])
  }

  lemma QuotedFree(s: Str, x: Str)
    requires s != [] && Quoted(s).token == Some(StringConstant(x))
    ensures s[0] !in x
  {}

  lemma UnquotedKind(s: Str, x: Str)
    requires s != []
    ensures Unquoted(s).token != Some(StringConstant(x))
  {}

  /** Behind a constant, the next character that is not white space is no quote. */
  lemma NoQuoteFollows(tail: Str)
    requires Follows(tail)
    ensures var r := SkipSpace(tail); r == [] || r[0] == EQUALS || r[0] == AND[0]
  {}

  lemma {:induction false} SkipInto(s: Str, tail: Str)
    ensures var r := SkipSpace(s + tail); r == SkipSpace(tail) || (r != [] && r[0] in s)
  {
    if s == [] {
      assert s + tail == tail;
    } else if IsSpace(s[0]) {
      assert (s + tail)[1..] == s[1..] + tail;
      SkipInto(s[1..], tail);
    } else {
      assert (s + tail)[0] == s[0];
    }
  }

  /** A string read by the lexer does not contain its quote, so the printed string is not read as that string. */
  lemma NotQuoted(s: Str, tail: Str)
    requires Follows(tail)
    ensures Next(s + tail).token != Some(StringConstant(s))
  {
    hide Quoted, Unquoted, SkipSpace, Follows;
    var r := SkipSpace(s + tail);
    SkipInto(s, tail);
    NoQuoteFollows(tail);
    if r != [] {
      UnquotedKind(r, s);
      if Quoted(r).token == Some(StringConstant(s)) {
        QuotedFree(r, s);
      }
    }
  }

  lemma SmallestInt(tail: Str)
    requires Stops(tail)
    ensures Next(PrintInt(-0x8000_0000) + tail).token == Some(Undefined)
  {
    hide Next, Decimal;
    LexDigits(true, 0x8000_0000, tail);
  }

  lemma FollowsStops(tail: Str)
    requires Follows(tail)
    ensures Stops(tail)
  {}

  lemma ExpressionLost(e: Expression, tail: Str)
    requires e.Const? && !Prints(e) && Follows(tail)
    ensures var p := ParseExpression(Next(PrintExpression(e) + tail)); p.Some? ==> p.value.0 != e
  {
    hide Next, Follows, Stops;
    FollowsStops(tail);
    match e.val {
      case IntVal(i) => SmallestInt(tail);
      case StrVal(s) => NotQuoted(s, tail);
    }
  }

  lemma TermLost(t: Term, tail: Str)
    requires NameOf(t.lhs) && NameOf(t.rhs) && !(Prints(t.lhs) && Prints(t.rhs)) && Follows(tail)
    ensures var p := ParseTerm(Next(PrintTerm(t) + tail)); p.Some? ==> p.value.0 != t
  {
    hide Next, IsWord, Stops, ParseExpression;
    var more := PrintExpression(t.rhs) + tail;
    assert PrintTerm(t) + tail == PrintExpression(t.lhs) + ([EQUALS] + more);
    CommaStops(more);
    if Prints(t.lhs) {
      ExpressionRoundTrip(t.lhs, [EQUALS] + more);
      LexDelim(EQUALS, more);
      ExpressionLost(t.rhs, tail);
    } else {
      ExpressionLost(t.lhs, [EQUALS] + more);
    }
  }

  lemma AndFollows(more: Str)
    ensures Follows([SPACE] + AND + [SPACE] + more) && Follows([])
  {}

  lemma {:induction false} PredicateLost(pred: Pred)
    requires NamesOf(pred) && !PrintsAll(pred)
    ensures var p := ParsePredicate(Next(PrintPredicate(pred))); p.Some? ==> p.value.0 != pred
  {
    hide Next, IsWord, Stops, ParseTerm, PrintTerm, Follows, Prints, NameOf;
    assert pred[0] in pred;
    var t := pred[0];
    var tail := if |pred| == 1 then [] else [SPACE] + AND + [SPACE] + PrintPredicate(pred[1..]);
    assert PrintPredicate(pred) == PrintTerm(t) + tail;
    AndFollows(PrintPredicate(pred[1..]));
    FollowsStops(tail);
    if !(Prints(t.lhs) && Prints(t.rhs)) {
      TermLost(t, tail);
    } else {
      TermRoundTrip(t, tail);
      assert pred == [t] + pred[1..];
      LexAnd(PrintPredicate(pred[1..]));
      PredicateLost(pred[1..]);
    }
  }

  /**
   Exactly the queries without string constants, and without the smallest int, come back as they were printed: strings
   print without quotes, and reading the smallest int overflows.
   */
  lemma RoundTripIff(q: QueryData)
    requires WellNamed(q)
    ensures ParseQuery(Next(PrintQuery(q))) == Some((q, Lex(None, []))) <==> PrintsAll(q.pred)
    ensures !PrintsAll(q.pred) ==> var p := ParseQuery(Next(PrintQuery(q))); p.Some? ==> p.value.0 != q
  {
    hide Next, IsWord, Stops, ParseQuery, PrintQuery, ParseWhere, PrintWhere, ParsePredicate, PrintPredicate;
    if PrintsAll(q.pred) {
      RoundTrip(q);
    } else {
      QueryText(q);
      WhereText(q.pred);
      PredicateLost(q.pred);
    }
  }

  // ---------------------------------------------------------------------------------------------
  // A view definition: what was parsed, printed and parsed again
  // ---------------------------------------------------------------------------------------------

  /** What the lexer delivers as names and numbers. */
  predicate Sound(l: Lex) {
    && (l.token.Some? && l.token.value.Id? ==> IsName(l.token.value.name))
    && (l.token.Some? && l.token.value.IntConstant? ==> l.token.value.n > -0x8000_0000)
  }

  lemma {:induction false} LowerAt(w: Str, k: nat)
    requires k < |w|
    ensures LowerCase(w)[k] == ToLower(w[k])
  {
    if k < |w| - 1 {
      LowerAt(w[..|w| - 1], k);
    }
  }

  lemma NextSound(text: Str)
    ensures Sound(Next(text))
  {
    hide IndexOf, DigitCount, DigitsValue;
    var s := SkipSpace(text);
    var w := WordCount(s, true);
    forall k | 0 <= k < w
      ensures LowerCase(s[..w])[k] == ToLower(s[k]) && IsWordChar(ToLower(s[k]), k == 0)
      ensures ToLower(ToLower(s[k])) == ToLower(s[k])
    {
      LowerAt(s[..w], k);
    }
  }

  /** What a parsed query cannot have: names that are no names, and the smallest int. */
  predicate SoundExpression(e: Expression) {
    NameOf(e) && (e.Const? && e.val.IntVal? ==> e.val.i > -0x8000_0000)
  }

  predicate SoundPredicate(pred: Pred) {
    forall t | t in pred :: SoundExpression(t.lhs) && SoundExpression(t.rhs)
  }

  lemma ExpressionSound(l: Lex)
    requires Sound(l)
    ensures var p := ParseExpression(l); p.Some? ==> SoundExpression(p.value.0) && Sound(p.value.1)
  {
    NextSound(l.rest);
  }

  lemma TermSound(l: Lex)
    requires Sound(l)
    ensures var p := ParseTerm(l);
            p.Some? ==> SoundExpression(p.value.0.lhs) && SoundExpression(p.value.0.rhs) && Sound(p.value.1)
  {
    hide ParseExpression, SoundExpression, Sound;
    ExpressionSound(l);
    var p := ParseExpression(l);
    if p.Some? {
      NextSound(p.value.1.rest);
      ExpressionSound(Next(p.value.1.rest));
    }
  }

  lemma {:induction false} PredicateSound(l: Lex)
    requires Sound(l)
    ensures var p := ParsePredicate(l); p.Some? ==> SoundPredicate(p.value.0) && Sound(p.value.1)
    decreases |l.rest|
  {
    hide ParseTerm, SoundExpression, Sound;
    TermSound(l);
    var p := ParseTerm(l);
    if p.Some? {
      NextSound(p.value.1.rest);
      if p.value.1.token == Some(Keyword(AND)) {
        PredicateSound(Next(p.value.1.rest));
      }
    }
  }

  lemma {:induction false} NamesSound(l: Lex)
    requires Sound(l)
    ensures var p := ParseNames(l);
            p.Some? ==> p.value.0 != [] && (forall w | w in p.value.0 :: IsName(w)) && Sound(p.value.1)
    decreases |l.rest|
  {
    hide IsName;
    var l1 := Next(l.rest);
    NextSound(l.rest);
    if EatId(l).Some? && l1.token == Some(Delim(COMMA)) {
      NextSound(l1.rest);
      NamesSound(Next(l1.rest));
    }
  }

  lemma QuerySound(l: Lex)
    requires Sound(l)
    ensures var p := ParseQuery(l); p.Some? ==> WellNamed(p.value.0) && SoundPredicate(p.value.0.pred)
  {
    hide ParseNames, ParsePredicate, Sound, IsName;
    NextSound(l.rest);
    NamesSound(Next(l.rest));
    var p := ParseNames(Next(l.rest));
    if p.Some? {
      var l2 := p.value.1;
      NextSound(l2.rest);
      NamesSound(Next(l2.rest));
      var p2 := ParseNames(Next(l2.rest));
      if p2.Some? {
        NextSound(p2.value.1.rest);
        PredicateSound(Next(p2.value.1.rest));
      }
    }
  }

  predicate HasNoString(pred: Pred) {
    forall t | t in pred ::
      !(t.lhs.Const? && t.lhs.val.StrVal?) && !(t.rhs.Const? && t.rhs.val.StrVal?)
  }

  /** A parsed query, stored as text, is read as the same query exactly if it has no string constant. */
  lemma ViewRoundTrip(text: Str)
    ensures var p := ParseQuery(Next(text));
            p.Some? ==> var q := p.value.0;
                        && (ParseQuery(Next(PrintQuery(q))) == Some((q, Lex(None, []))) <==> HasNoString(q.pred))
                        && (var again := ParseQuery(Next(PrintQuery(q)));
                            again.Some? && again.value.0 == q ==> HasNoString(q.pred))
  {
    hide Next, ParseQuery, PrintQuery, IsName;
    NextSound(text);
    QuerySound(Next(text));
    var p := ParseQuery(Next(text));
    if p.Some? {
      RoundTripIff(p.value.0);
    }
  }
}

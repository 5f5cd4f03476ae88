/**
 What the lexer makes of a text, said byte by byte: letters count without their case, quoted text as it is.
 */
module LexMeaning {
  import opened Types
  import opened Queries
  import opened Lexing
  import opened Printing

  // ---------------------------------------------------------------------------------------------
  // Texts that differ in the case of letters
  // ---------------------------------------------------------------------------------------------

  /** The same byte, or a capital letter and its small letter. */
  predicate SameLetter(c: byte, d: byte) {
    || c == d
    || (65 <= c <= 90 && d == c + 32)
    || (65 <= d <= 90 && c == d + 32)
  }

  /** The same text up to the case of letters outside quotes; `quote` is the quote that is open. */
  predicate SameUpToCase(s: Str, t: Str, quote: Option<byte>) {
    if s == [] || t == [] then s == t
    else if quote.Some? then s[0] == t[0] && SameUpToCase(s[1..], t[1..], if s[0] == quote.value then None else quote)
    else SameLetter(s[0], t[0]) && SameUpToCase(s[1..], t[1..], if s[0] in [34, 39] then Some(s[0]) else None)
  }

  predicate SameLex(l: Lex, m: Lex) {
    l.token == m.token && SameUpToCase(l.rest, m.rest, None)
  }

  lemma LetterKinds(c: byte, d: byte)
    requires SameLetter(c, d)
    ensures IsSpace(c) == IsSpace(d) && IsDigit(c) == IsDigit(d) && (IsDigit(c) ==> c == d)
    ensures forall first :: IsWordChar(c, first) == IsWordChar(d, first)
    ensures IsDelimChar(c) == IsDelimChar(d) && (IsDelimChar(c) ==> c == d)
    ensures ToLower(c) == ToLower(d)
    ensures c in [34, 39, MINUS] ==> c == d
    ensures d in [34, 39, MINUS] ==> c == d
  {}

  lemma {:induction false} SkipSame(s: Str, t: Str)
    requires SameUpToCase(s, t, None)
    ensures SameUpToCase(SkipSpace(s), SkipSpace(t), None)
  {
    if s != [] {
      LetterKinds(s[0], t[0]);
      if IsSpace(s[0]) {
        SkipSame(s[1..], t[1..]);
      }
    }
  }

  /** A stretch without quotes. */
  lemma {:induction false} StretchSame(s: Str, t: Str, k: nat)
    requires SameUpToCase(s, t, None) && k <= |s| && forall m | 0 <= m < k :: s[m] != 34 && s[m] != 39
    ensures |t| == |s| && SameUpToCase(s[k..], t[k..], None) && forall m | 0 <= m < k :: SameLetter(s[m], t[m])
  {
    SameLengths(s, t, None);
    if k > 0 {
      StretchSame(s[1..], t[1..], k - 1);
      assert s[1..][k - 1..] == s[k..] && t[1..][k - 1..] == t[k..];
      assert forall m | 1 <= m < k :: s[m] == s[1..][m - 1] && t[m] == t[1..][m - 1];
    }
  }

  lemma {:induction false} SameLengths(s: Str, t: Str, quote: Option<byte>)
    requires SameUpToCase(s, t, quote)
    ensures |s| == |t|
  {
    if s != [] {
      SameLengths(s[1..], t[1..], if quote.Some? then if s[0] == quote.value then None else quote
                                  else if s[0] in [34, 39] then Some(s[0]) else None);
    }
  }

  /** Inside quotes the texts are the same up to the closing quote. */
  lemma {:induction false} QuoteSame(s: Str, t: Str, q: byte)
    requires SameUpToCase(s, t, Some(q))
    ensures IndexOf(s, q) == IndexOf(t, q) && |s| == |t| && s[..IndexOf(s, q)] == t[..IndexOf(t, q)]
    ensures IndexOf(s, q) < |s| ==> SameUpToCase(s[IndexOf(s, q) + 1..], t[IndexOf(t, q) + 1..], None)
  {
    SameLengths(s, t, Some(q));
    if s != [] && s[0] != q {
      QuoteSame(s[1..], t[1..], q);
      var k := IndexOf(s[1..], q);
      assert s[..k + 1] == [s[0]] + s[1..][..k] && t[..k + 1] == [t[0]] + t[1..][..k];
      assert k + 1 < |s| ==> s[1..][k + 1..] == s[k + 2..] && t[1..][k + 1..] == t[k + 2..];
    }
  }

  lemma {:induction false} LowerPointwise(v: Str, w: Str)
    requires |v| == |w| && forall m | 0 <= m < |v| :: SameLetter(v[m], w[m])
    ensures LowerCase(v) == LowerCase(w)
  {
    if v != [] {
      LetterKinds(v[|v| - 1], w[|w| - 1]);
      LowerPointwise(v[..|v| - 1], w[..|w| - 1]);
    }
  }

  /** A number looks the same in both. */
  lemma DigitsSame(s: Str, t: Str)
    requires SameUpToCase(s, t, None)
    ensures DigitCount(s) == DigitCount(t) && s[..DigitCount(s)] == t[..DigitCount(t)]
    ensures SameUpToCase(s[DigitCount(s)..], t[DigitCount(t)..], None)
  {
    var n := DigitCount(s);
    assert forall m | 0 <= m < n :: IsDigit(s[m]);
    StretchSame(s, t, n);
    forall m | 0 <= m < n
      ensures s[m] == t[m] && IsDigit(t[m])
    {
      LetterKinds(s[m], t[m]);
    }
    if n < |s| {
      assert s[n..][0] == s[n] && t[n..][0] == t[n];
      LetterKinds(s[n], t[n]);
    }
    DigitsAt(t, n);
  }

  /** A word is the same in small letters. */
  lemma WordSame(s: Str, t: Str)
    requires SameUpToCase(s, t, None)
    ensures WordCount(s, true) == WordCount(t, true)
    ensures LowerCase(s[..WordCount(s, true)]) == LowerCase(t[..WordCount(t, true)])
    ensures SameUpToCase(s[WordCount(s, true)..], t[WordCount(t, true)..], None)
  {
    hide LowerCase;
    var w := WordCount(s, true);
    assert forall m | 0 <= m < w :: IsWordChar(s[m], m == 0);
    StretchSame(s, t, w);
    forall m | 0 <= m < w
      ensures IsWordChar(t[m], m == 0)
    {
      LetterKinds(s[m], t[m]);
    }
    if w < |s| {
      assert s[w..][0] == s[w] && t[w..][0] == t[w];
      LetterKinds(s[w], t[w]);
    }
    WordAt(t, true, w);
    LowerPointwise(s[..w], t[..w]);
  }

  lemma UnquotedSame(s: Str, t: Str)
    requires s != [] && t != [] && SameUpToCase(s, t, None) && s[0] != 34 && s[0] != 39
    ensures SameLex(Unquoted(s), Unquoted(t))
  {
    hide DigitCount, WordCount, LowerCase, DigitsValue;
    LetterKinds(s[0], t[0]);
    DigitsSame(if s[0] == MINUS then s[1..] else s, if t[0] == MINUS then t[1..] else t);
    WordSame(s, t);
  }

  /** The next token does not depend on the case of letters outside quotes, and neither does what follows it. */
  lemma CaseBlind(s: Str, t: Str)
    requires SameUpToCase(s, t, None)
    ensures SameLex(Next(s), Next(t))
  {
    hide Unquoted, SkipSpace;
    SkipSame(s, t);
    var a, b := SkipSpace(s), SkipSpace(t);
    if a != [] {
      LetterKinds(a[0], b[0]);
      if a[0] == 34 || a[0] == 39 {
        QuoteSame(a[1..], b[1..], a[0]);
      } else {
        UnquotedSame(a, b);
      }
    }
  }

  // ---------------------------------------------------------------------------------------------
  // Parsing
  // ---------------------------------------------------------------------------------------------

  /** The same result, or an error in both. */
  predicate SameParse<T(==)>(p: Parsed<T>, q: Parsed<T>) {
    (p.Some? <==> q.Some?) && (p.Some? ==> p.value.0 == q.value.0 && SameLex(p.value.1, q.value.1))
  }

  lemma ExpressionSame(l: Lex, m: Lex)
    requires SameLex(l, m)
    ensures SameParse(ParseExpression(l), ParseExpression(m))
  {
    CaseBlind(l.rest, m.rest);
  }

  lemma TermSame(l: Lex, m: Lex)
    requires SameLex(l, m)
    ensures SameParse(ParseTerm(l), ParseTerm(m))
  {
    hide Next, ParseExpression, SameUpToCase;
    ExpressionSame(l, m);
    var p, q := ParseExpression(l), ParseExpression(m);
    if p.Some? {
      CaseBlind(p.value.1.rest, q.value.1.rest);
      ExpressionSame(Next(p.value.1.rest), Next(q.value.1.rest));
    }
  }

  lemma {:induction false} PredicateSame(l: Lex, m: Lex)
    requires SameLex(l, m)
    ensures SameParse(ParsePredicate(l), ParsePredicate(m))
    decreases |l.rest|
  {
    hide Next, ParseTerm, SameUpToCase;
    TermSame(l, m);
    var p, q := ParseTerm(l), ParseTerm(m);
    if p.Some? && p.value.1.token == Some(Keyword(AND)) {
      CaseBlind(p.value.1.rest, q.value.1.rest);
      PredicateSame(Next(p.value.1.rest), Next(q.value.1.rest));
    }
  }

  lemma {:induction false} NamesSame(l: Lex, m: Lex)
    requires SameLex(l, m)
    ensures SameParse(ParseNames(l), ParseNames(m))
    decreases |l.rest|
  {
    hide Next, SameUpToCase;
    CaseBlind(l.rest, m.rest);
    var l1, m1 := Next(l.rest), Next(m.rest);
    if EatId(l).Some? && l1.token == Some(Delim(COMMA)) {
      CaseBlind(l1.rest, m1.rest);
      NamesSame(Next(l1.rest), Next(m1.rest));
    }
  }

  lemma FromSame(l: Lex, m: Lex, fields: seq<Str>)
    requires SameLex(l, m)
    ensures SameParse(ParseFrom(l, fields), ParseFrom(m, fields))
  {
    hide Next, ParseNames, ParsePredicate, SameUpToCase;
    CaseBlind(l.rest, m.rest);
    NamesSame(Next(l.rest), Next(m.rest));
    var p, q := ParseNames(Next(l.rest)), ParseNames(Next(m.rest));
    if p.Some? {
      CaseBlind(p.value.1.rest, q.value.1.rest);
      PredicateSame(Next(p.value.1.rest), Next(q.value.1.rest));
    }
  }

  /** Two texts that agree up to the case of letters outside quotes are the same query, or no query both. */
  lemma QueryCaseBlind(s: Str, t: Str)
    requires SameUpToCase(s, t, None)
    ensures SameParse(ParseQuery(Next(s)), ParseQuery(Next(t)))
  {
    hide Next, ParseNames, ParseFrom, SameUpToCase;
    CaseBlind(s, t);
    var l, m := Next(s), Next(t);
    CaseBlind(l.rest, m.rest);
    NamesSame(Next(l.rest), Next(m.rest));
    var p, q := ParseNames(Next(l.rest)), ParseNames(Next(m.rest));
    if p.Some? {
      FromSame(p.value.1, q.value.1, p.value.0);
    }
  }

  // ---------------------------------------------------------------------------------------------
  // Single tokens, byte by byte
  // ---------------------------------------------------------------------------------------------

  /** A quoted text without its quote is read as exactly the string between the quotes. */
  lemma QuotedText(q: byte, s: Str, tail: Str)
    requires (q == 34 || q == 39) && forall k | 0 <= k < |s| :: s[k] != q
    ensures Next([q] + s + [q] + tail) == Lex(Some(StringConstant(s)), tail)
  {
    hide IndexOf;
    var text := [q] + s + [q] + tail;
    assert SkipSpace(text) == text && text[0] == q;
    FirstAt(text[1..], q, |s|);
    assert text[1..][..|s|] == s && text[1..][|s| + 1..] == tail;
  }

  /** The bytes of a word as the lexer delivers it: small letters, underscore, the upper part of Latin-1, and digits. */
  lemma WordBytes(w: Str)
    ensures IsWord(w) <==>
            && w != []
            && forall k | 0 <= k < |w| :: 97 <= w[k] <= 122 || w[k] == 95 || w[k] >= 160 || (k > 0 && 48 <= w[k] <= 57)
  {}

  /** A word is read in small letters. */
  lemma WordRead(v: Str, w: Str, tail: Str)
    requires IsWord(w) && Stops(tail) && |v| == |w| && forall k | 0 <= k < |w| :: SameLetter(v[k], w[k])
    ensures Next(v + tail).token == Some(WordToken(w))
  {
    LexWord(w, tail);
    SameTail(v, w, tail);
    CaseBlind(v + tail, w + tail);
  }

  lemma {:induction false} SameTail(v: Str, w: Str, tail: Str)
    requires |v| == |w| && forall k | 0 <= k < |w| :: SameLetter(v[k], w[k]) && w[k] != 34 && w[k] != 39
    ensures SameUpToCase(v + tail, w + tail, None)
  {
    if v == [] {
      assert v + tail == tail && w + tail == tail;
      SameSelf(tail, None);
    } else {
      LetterKinds(v[0], w[0]);
      SameTail(v[1..], w[1..], tail);
      assert (v + tail)[1..] == v[1..] + tail && (w + tail)[1..] == w[1..] + tail;
    }
  }

  lemma {:induction false} SameSelf(s: Str, quote: Option<byte>)
    ensures SameUpToCase(s, s, quote)
  {
    if s != [] {
      SameSelf(s[1..], if quote.Some? then if s[0] == quote.value then None else quote
                       else if s[0] in [34, 39] then Some(s[0]) else None);
    }
  }

  /** White space is every byte up to the space. */
  lemma SpaceSkipped(c: byte, s: Str)
    requires c <= 32
    ensures Next([c] + s) == Next(s)
  {
    assert ([c] + s)[1..] == s;
  }

  /** Every other byte is a delimiter; a minus sign in front of a digit is not. */
  lemma DelimiterRead(c: byte, tail: Str)
    requires 33 <= c < 160 && c != 34 && c != 39 && c != 95 && !(48 <= c <= 57) && !(65 <= c <= 90) && !(97 <= c <= 122)
    requires c == 45 && tail != [] ==> !(48 <= tail[0] <= 57)
    ensures Next([c] + tail) == Lex(Some(Delim(c)), tail)
  {
    var s := [c] + tail;
    assert SkipSpace(s) == s && s[0] == c && s[1..] == tail;
    DigitsAt(s, 0);
    DigitsAt(tail, if c == 45 then 0 else DigitCount(tail));
    WordAt(s, true, 0);
  }

  lemma Words1()
    ensures Ascii("select") == [115, 101, 108, 101, 99, 116]
    ensures Ascii("from") == [102, 114, 111, 109]
    ensures Ascii("where") == [119, 104, 101, 114, 101]
    ensures Ascii("and") == [97, 110, 100]
    ensures Ascii("insert") == [105, 110, 115, 101, 114, 116]
  {}

  lemma Words2()
    ensures Ascii("into") == [105, 110, 116, 111]
    ensures Ascii("values") == [118, 97, 108, 117, 101, 115]
    ensures Ascii("delete") == [100, 101, 108, 101, 116, 101]
    ensures Ascii("update") == [117, 112, 100, 97, 116, 101]
  {}

  lemma Words3()
    ensures Ascii("set") == [115, 101, 116]
    ensures Ascii("create") == [99, 114, 101, 97, 116, 101]
    ensures Ascii("table") == [116, 97, 98, 108, 101]
    ensures Ascii("int") == [105, 110, 116]
  {}

  lemma Words4()
    ensures Ascii("varchar") == [118, 97, 114, 99, 104, 97, 114]
    ensures Ascii("view") == [118, 105, 101, 119]
    ensures Ascii("as") == [97, 115]
    ensures Ascii("index") == [105, 110, 100, 101, 120]
    ensures Ascii("on") == [111, 110]
  {}

  /** The keywords. */
  lemma KeywordSpelling()
    ensures SELECT == Ascii("select") && FROM == Ascii("from") && WHERE == Ascii("where") && AND == Ascii("and")
    ensures EQUALS == '=' as int && COMMA == ',' as int && MINUS == '-' as int
    ensures KEYWORDS == {
      Ascii("select"), Ascii("from"), Ascii("where"), Ascii("and"), Ascii("insert"), Ascii("into"), Ascii("values"),
      Ascii("delete"), Ascii("update"), Ascii("set"), Ascii("create"), Ascii("table"), Ascii("int"), Ascii("varchar"),
      Ascii("view"), Ascii("as"), Ascii("index"), Ascii("on")}
  {
    Words1();
    Words2();
    Words3();
    Words4();
    hide Ascii;
  }

  function Power10(k: nat): nat {
    if k == 0 then 1 else 10 * Power10(k - 1)
  }

  /** Digits are decimal: the first one counts as much as there are places behind it. */
  lemma {:induction false} FirstDigit(d: byte, s: Str)
    requires IsDigit(d) && forall k | 0 <= k < |s| :: IsDigit(s[k])
    ensures forall k | 0 <= k < |s| + 1 :: IsDigit(([d] + s)[k])
    ensures DigitsValue([d] + s) == (d - 48) * Power10(|s|) + DigitsValue(s)
  {
    if s == [] {
      assert [d] + s == [d] && [d][..0] == [];
    } else {
      var n := |s| - 1;
      FirstDigit(d, s[..n]);
      assert ([d] + s)[..|s|] == [d] + s[..n] && ([d] + s)[|s|] == s[n];
      var e: int := d - 48;
      TenTimes(e, Power10(n));
    }
  }

  /** A row of digits, with or without a minus sign, is its number; one that is too large has no meaning. */
  lemma NumberRead(negative: bool, s: Str, tail: Str)
    requires s != [] && (forall k | 0 <= k < |s| :: 48 <= s[k] <= 57)
    requires tail != [] ==> !(48 <= tail[0] <= 57)
    ensures forall k | 0 <= k < |s| :: IsDigit(s[k])
    ensures var n: int := DigitsValue(s);
            var token := if n > 0x7FFF_FFFF then Undefined else IntConstant(if negative then -n else n);
            Next((if negative then [45] else []) + (s + tail)) == Lex(Some(token), tail)
  {
    hide DigitsValue, DigitCount, Unquoted, Next;
    var digits := s + tail;
    var text := (if negative then [45] else []) + digits;
    assert text[0] == (if negative then 45 else s[0]);
    NoSpace(text);
    DigitsAt(digits, |s|);
    assert digits[..|s|] == s && digits[|s|..] == tail;
    SignedNumber(text, digits, negative);
  }

  lemma NoSpace(s: Str)
    requires s != [] && s[0] > 32 && s[0] != 34 && s[0] != 39
    ensures Next(s) == Unquoted(s)
  {
    hide Unquoted;
  }

  lemma SignedNumber(text: Str, digits: Str, negative: bool)
    requires DigitCount(digits) > 0 && text == (if negative then [45] else []) + digits
    ensures var n := DigitCount(digits);
            Unquoted(text) == Lex(Some(NumberToken(DigitsValue(digits[..n]), negative)), digits[n..])
  {
    hide DigitsValue, WordCount, LowerCase, DigitCount, NumberToken;
    assert digits == (if text[0] == 45 then text[1..] else text) && (negative <==> text[0] == 45);
  }

  lemma TenTimes(e: int, p: nat)
    ensures e * (10 * p) == 10 * (e * p)
  {}
}

/**
 The lexer: what the next token of a text is, and the class that steps through a text.
 */
module Lexing {
  import opened Types

  const SPACE: byte := 32
  const DOUBLE_QUOTE: byte := 34
  const SINGLE_QUOTE: byte := 39
  const COMMA: byte := 44
  const MINUS: byte := 45
  const EQUALS: byte := 61

  const SELECT: Str := [115, 101, 108, 101, 99, 116]
  const FROM: Str := [102, 114, 111, 109]
  const WHERE: Str := [119, 104, 101, 114, 101]
  const AND: Str := [97, 110, 100]

  /** The keywords, in the order of the source; among them insert, into, values, delete, update, set, create, ... */
  const KEYWORDS: set<Str> := {
    SELECT,
    FROM,
    WHERE,
    AND,
    [105, 110, 115, 101, 114, 116],
    [105, 110, 116, 111],
    [118, 97, 108, 117, 101, 115],
    [100, 101, 108, 101, 116, 101],
    [117, 112, 100, 97, 116, 101],
    [115, 101, 116],
    [99, 114, 101, 97, 116, 101],
    [116, 97, 98, 108, 101],
    [105, 110, 116],
    [118, 97, 114, 99, 104, 97, 114],
    [118, 105, 101, 119],
    [97, 115],
    [105, 110, 100, 101, 120],
    [111, 110]
  }

  /** `Undefined` stands for a number whose computation overflows an int32, which has no meaning in C++. */
  datatype Token =
    | Delim(d: byte)
    | IntConstant(n: int32)
    | StringConstant(s: Str)
    | Keyword(w: Str)
    | Id(name: Str)
    | Undefined

  /** The current token and the text behind it. */
  datatype Lex = Lex(token: Option<Token>, rest: Str)

  predicate IsSpace(c: byte) {
    c <= SPACE
  }

  predicate IsDigit(c: byte) {
    48 <= c <= 57
  }

  /** Letters, the upper half of Latin-1 from 0xA0 on, and the underscore; digits behind the first character. */
  predicate IsWordChar(c: byte, first: bool) {
    97 <= c <= 122 || 65 <= c <= 90 || c >= 0xA0 || c == 95 || (!first && IsDigit(c))
  }

  predicate IsDelimChar(c: byte) {
    !IsSpace(c) && !IsDigit(c) && !IsWordChar(c, true)
  }

  function ToLower(c: byte): byte {
    if 65 <= c <= 90 then c + 32 else c
  }

  function LowerCase(w: Str): (l: Str)
    ensures |l| == |w|
  {
    if w == [] then [] else LowerCase(w[..|w| - 1]) + [ToLower(w[|w| - 1])]
  }

  function SkipSpace(s: Str): (r: Str)
    ensures |r| <= |s| && (r != [] ==> !IsSpace(r[0]))
  {
    if s != [] && IsSpace(s[0]) then SkipSpace(s[1..]) else s
  }

  /** The position of the first `c`, or the length. */
  function IndexOf(s: Str, c: byte): (k: nat)
    ensures k <= |s| && (k < |s| ==> s[k] == c) && forall m | 0 <= m < k :: s[m] != c
  {
    if s == [] || s[0] == c then 0 else 1 + IndexOf(s[1..], c)
  }

  function DigitCount(s: Str): (k: nat)
    ensures k <= |s| && (forall m | 0 <= m < k :: IsDigit(s[m])) && (k < |s| ==> !IsDigit(s[k]))
  {
    if s == [] || !IsDigit(s[0]) then 0 else 1 + DigitCount(s[1..])
  }

  function WordCount(s: Str, first: bool): (k: nat)
    ensures k <= |s| && (forall m | 0 <= m < k :: IsWordChar(s[m], first && m == 0))
    ensures k < |s| ==> !IsWordChar(s[k], first && k == 0)
  {
    if s == [] || !IsWordChar(s[0], first) then 0 else 1 + WordCount(s[1..], false)
  }

  function DigitsValue(s: Str): nat
    requires forall m | 0 <= m < |s| :: IsDigit(s[m])
  {
    if s == [] then 0
    else
      assert IsDigit(s[|s| - 1]);
      var c: int := s[|s| - 1];
      10 * DigitsValue(s[..|s| - 1]) + (c - 48)
  }

  function NumberToken(value: int, negative: bool): Token {
    if !(0 <= value < 0x8000_0000) then Undefined else IntConstant(if negative then -value else value)
  }

  function WordToken(w: Str): Token {
    if w in KEYWORDS then Keyword(w) else Id(w)
  }

  function Quoted(s: Str): Lex
    requires s != []
  {
    var k := IndexOf(s[1..], s[0]);
    if k == |s| - 1 then Lex(None, []) else Lex(Some(StringConstant(s[1..][..k])), s[1..][k + 1..])
  }

  /** The token at the beginning of a text that does not begin with white space. */
  function Unquoted(s: Str): Lex
    requires s != []
  {
    var negative := s[0] == MINUS;
    var digits := if negative then s[1..] else s;
    var n := DigitCount(digits);
    var w := WordCount(s, true);
    if n > 0 then Lex(Some(NumberToken(DigitsValue(digits[..n]), negative)), digits[n..])
    else if w > 0 then Lex(Some(WordToken(LowerCase(s[..w]))), s[w..])
    else if IsDelimChar(s[0]) then Lex(Some(Delim(s[0])), s[1..])
    else Lex(None, s)
  }

  /** The first token of a text and what follows it. */
  function Next(text: Str): (l: Lex)
    ensures |l.rest| <= |text| && (l.token.Some? ==> |l.rest| < |text|)
  {
    var s := SkipSpace(text);
    if s == [] then Lex(None, [])
    else if s[0] == DOUBLE_QUOTE || s[0] == SINGLE_QUOTE then Quoted(s)
    else Unquoted(s)
  }

  class Lexer {
    const chars: Str
    var i: nat
    var token: Option<Token>

    ghost predicate Valid()
      reads this
    {
      i <= |chars|
    }

    ghost function Now(): Lex
      requires Valid()
      reads this
    {
      Lex(token, chars[i..])
    }

    constructor (s: Str)
      ensures Valid() && Now() == Next(s) && chars == s
    {
      chars, i, token := s, 0, None;
      new;
      assert chars[0..] == s;
      NextToken();
    }

    /** Moves to the next token. */
    method NextToken()
      requires Valid()
      modifies this
      ensures Valid() && Now() == Next(old(chars[i..]))
    {
      if i >= |chars| {
        token := None;
        return;
      }
      var more := SkipWhite();
      if !more {
        token := None;
        return;
      }
      var ch := chars[i];
      if ch == DOUBLE_QUOTE || ch == SINGLE_QUOTE {
        QuotedToken();
        return;
      }
      PlainToken();
    }

    method SkipWhite() returns (more: bool)
      requires i < |chars|
      modifies `i
      ensures Valid() && chars[i..] == SkipSpace(old(chars[i..])) && (more <==> i < |chars|)
    {
      while IsSpace(chars[i])
        invariant i < |chars| && SkipSpace(chars[i..]) == SkipSpace(old(chars[i..]))
        decreases |chars| - i
      {
        assert chars[i..][1..] == chars[i + 1..];
        i := i + 1;
        if i >= |chars| {
          return false;
        }
      }
      more := true;
    }

    method QuotedToken()
      requires i < |chars|
      modifies this`i, this`token
      ensures Valid() && Now() == Quoted(old(chars[i..]))
    {
      hide Quoted;
      ghost var start := i + 1;
      var ch := chars[i];
      i := i + 1;
      if i >= |chars| {
        token := None;
        QuotedUpTo(chars, start, i);
        return;
      }
      var sval: Str := [];
      var c := chars[i];
      while c != ch
        invariant start <= i < |chars| && c == chars[i] && sval == chars[start..i]
        invariant forall m | start <= m < i :: chars[m] != ch
        decreases |chars| - i
      {
        sval := sval + [c];
        i := i + 1;
        if i >= |chars| {
          token := None;
          QuotedUpTo(chars, start, i);
          return;
        }
        c := chars[i];
      }
      token := Some(StringConstant(sval));
      QuotedUpTo(chars, start, i);
      i := i + 1;
    }

    method PlainToken()
      requires i < |chars|
      modifies this`i, this`token
      ensures Valid() && Now() == Unquoted(old(chars[i..]))
    {
      hide DigitsValue, DigitCount, WordCount, IsDelimChar, LowerCase;
      ghost var s, start := chars[i..], i;
      var isNegative := false;
      if chars[i] == MINUS {
        isNegative := true;
        i := i + 1;
      }
      assert chars[i..] == if isNegative then s[1..] else s;
      var nval, isNumberFound := ReadDigits();
      if isNumberFound {
        token := Some(NumberToken(nval, isNegative));
        return;
      }
      if isNegative {
        i := i - 1;
      }
      assert i == start;
      WordOrDelim();
    }

    /** The part of `next_token` that reads a number. */
    method ReadDigits() returns (nval: nat, isNumberFound: bool)
      requires Valid()
      modifies this`i
      ensures var s := old(chars[i..]); var n := DigitCount(s);
              && i == old(i) + n <= |chars| && chars[i..] == s[n..]
              && nval == DigitsValue(s[..n]) && (isNumberFound <==> n > 0)
    {
      ghost var s, start := chars[i..], i;
      nval, isNumberFound := 0, false;
      while i < |chars| && IsDigit(chars[i])
        invariant start <= i <= |chars| && (forall m | 0 <= m < i - start :: IsDigit(s[m]))
        invariant nval == DigitsValue(s[..i - start]) && (isNumberFound <==> i > start)
      {
        isNumberFound := true;
        var c: int := chars[i];
        assert s[i - start] == chars[i] && s[..i - start + 1][..i - start] == s[..i - start];
        nval := 10 * nval + (c - 48);
        i := i + 1;
      }
      DigitsAt(s, i - start);
    }

    /** The part of `next_token` that reads words and delimiters. */
    method WordOrDelim()
      requires i < |chars|
      modifies this`i, this`token
      ensures Valid()
      ensures var s := old(chars[i..]); var w := WordCount(s, true);
              Now() == if w > 0 then Lex(Some(WordToken(LowerCase(s[..w]))), s[w..])
                       else if IsDelimChar(s[0]) then Lex(Some(Delim(s[0])), s[1..])
                       else Lex(None, s)
    {
      ghost var s, start := chars[i..], i;
      var sval: Str := [];
      var isFirst := true;
      while i < |chars| && IsWordChar(chars[i], isFirst)
        invariant start <= i <= |chars| && sval == s[..i - start] && (isFirst <==> i == start)
        invariant forall m | 0 <= m < i - start :: IsWordChar(s[m], m == 0)
      {
        sval := sval + [chars[i]];
        i := i + 1;
        isFirst := false;
      }
      WordAt(s, true, i - start);
      assert s[i - start..] == chars[i..];
      if sval != [] {
        token := Some(WordToken(LowerCase(sval)));
        return;
      }
      if i < |chars| && IsDelimChar(chars[i]) {
        token := Some(Delim(chars[i]));
        i := i + 1;
        return;
      }
      token := None;
    }
  }

  /** Behind the quote in front of `start` the next one stands at `i`, or there is none. */
  lemma QuotedUpTo(chars: Str, start: nat, i: nat)
    requires 0 < start <= i <= |chars| && (forall m | start <= m < i :: chars[m] != chars[start - 1])
    requires i < |chars| ==> chars[i] == chars[start - 1]
    ensures Quoted(chars[start - 1..]) ==
            if i == |chars| then Lex(None, []) else Lex(Some(StringConstant(chars[start..i])), chars[i + 1..])
  {
    var rest := chars[start..];
    assert chars[start - 1..][1..] == rest;
    FirstAt(rest, chars[start - 1], i - start);
    assert rest[..i - start] == chars[start..i];
    assert i < |chars| ==> rest[i - start + 1..] == chars[i + 1..];
  }

  lemma {:induction false} FirstAt(s: Str, c: byte, k: nat)
    requires k <= |s| && (k < |s| ==> s[k] == c) && forall m | 0 <= m < k :: s[m] != c
    ensures IndexOf(s, c) == k
  {
    if k > 0 {
      FirstAt(s[1..], c, k - 1);
    }
  }

  lemma {:induction false} DigitsAt(s: Str, k: nat)
    requires k <= |s| && (forall m | 0 <= m < k :: IsDigit(s[m])) && (k < |s| ==> !IsDigit(s[k]))
    ensures DigitCount(s) == k
  {
    if k > 0 {
      DigitsAt(s[1..], k - 1);
    }
  }

  lemma {:induction false} WordAt(s: Str, first: bool, k: nat)
    requires k <= |s| && (forall m | 0 <= m < k :: IsWordChar(s[m], first && m == 0))
    requires k < |s| ==> !IsWordChar(s[k], first && k == 0)
    ensures WordCount(s, first) == k
  {
    if k > 0 {
      WordAt(s[1..], false, k - 1);
    }
  }
}

/** Concrete sources and what the lexer makes of them: the cases the
    lexer's unit test checks, one at a time and all together, and a few
    edge cases of the rules. */
module Examples {
  import opened Wrappers
  import opened Tokens
  import opened Literals
  import opened Patterns
  import opened Scanner
  import opened Munch

  function Item(t: Token, start: nat, end: nat): Lexeme {
    Lexeme(Ok(t), Span(start, end))
  }

  // ---------------------------------------------------------------------
  // Putting rounds together: each round puts one item in front of the
  // rest of the output

  lemma Cons3(t0: seq<Lexeme>, t1: seq<Lexeme>, t2: seq<Lexeme>, t3: seq<Lexeme>, a: Lexeme, b: Lexeme, c: Lexeme)
    requires t0 == [a] + t1 && t1 == [b] + t2 && t2 == [c] + t3
    ensures t0 == [a, b, c] + t3
  {
    assert [a] + ([b] + ([c] + t3)) == [a, b, c] + t3;
  }

  lemma Last2(t0: seq<Lexeme>, t1: seq<Lexeme>, t2: seq<Lexeme>, a: Lexeme, b: Lexeme)
    requires t0 == [a] + t1 && t1 == [b] + t2 && t2 == []
    ensures t0 == [a, b]
  {
    assert [a] + ([b] + []) == [a, b];
  }

  lemma Last3(t0: seq<Lexeme>, t1: seq<Lexeme>, t2: seq<Lexeme>, t3: seq<Lexeme>, a: Lexeme, b: Lexeme, c: Lexeme)
    requires t0 == [a] + t1 && t1 == [b] + t2 && t2 == [c] + t3 && t3 == []
    ensures t0 == [a, b, c]
  {
    assert [a] + ([b] + ([c] + [])) == [a, b, c];
  }

  /** `&&` is one token, not two `&`. */
  lemma AndAndIsOneToken()
    ensures Tokenize("&&") == [Item(AndAnd, 0, 2)]
  {
    var src := "&&";
    assert Spelling(AndAnd).value == "&&";
    OperatorStep(src, 0, AndAnd);
    TokenizeFromEmit(src, 0, Ok(AndAnd), 2);
    TokenizeFromEnd(src);
    Last1(Tokenize(src), TokenizeFrom(src, 2), Item(AndAnd, 0, 2));
  }

  /** `||` is one token, not two `|`. */
  lemma OrOrIsOneToken()
    ensures Tokenize("||") == [Item(OrOr, 0, 2)]
  {
    var src := "||";
    assert Spelling(OrOr).value == "||";
    OperatorStep(src, 0, OrOr);
    TokenizeFromEmit(src, 0, Ok(OrOr), 2);
    TokenizeFromEnd(src);
    Last1(Tokenize(src), TokenizeFrom(src, 2), Item(OrOr, 0, 2));
  }

  /** `&|` is no operator, so it is `&` then `|`. */
  lemma AndThenOr()
    ensures Tokenize("&|") == [Item(And, 0, 1), Item(Or, 1, 2)]
  {
    var src := "&|";
    assert Spelling(And).value == "&" && Spelling(Or).value == "|";
    OperatorStep(src, 0, And);
    OperatorStep(src, 1, Or);
    TokenizeFromEmit(src, 0, Ok(And), 1);
    TokenizeFromEmit(src, 1, Ok(Or), 1);
    TokenizeFromEnd(src);
    Last2(Tokenize(src), TokenizeFrom(src, 1), TokenizeFrom(src, 2), Item(And, 0, 1), Item(Or, 1, 2));
  }

  /** `==` is equality, not two assignments. */
  lemma EqIsOneToken()
    ensures Tokenize("==") == [Item(Eq, 0, 2)]
  {
    var src := "==";
    assert Spelling(Eq).value == "==";
    OperatorStep(src, 0, Eq);
    TokenizeFromEmit(src, 0, Ok(Eq), 2);
    TokenizeFromEnd(src);
    Last1(Tokenize(src), TokenizeFrom(src, 2), Item(Eq, 0, 2));
  }

  // ---------------------------------------------------------------------
  // Rounds at a known text

  /** `let` followed by a character that cannot continue an identifier is
      the keyword. */
  lemma KeywordAt(src: string, i: nat)
    requires i + 3 <= |src| && src[i] == 'l' && src[i + 1] == 'e' && src[i + 2] == 't'
    requires i + 3 < |src| ==> !InClass(src[i + 3], IdentContinue)
    ensures StepAt(src, i) == Emit(Ok(Let), 3)
  {
    assert AllIn(src[i + 1..i + 3], IdentContinue);
    RunLengthStopsAt(src, i + 1, IdentContinue, 2);
    assert MatchLen(IdentName, src, i) == 3;
    assert src[i..i + 3] == "let";
    WordStep(src, i);
  }

  /** A whole identifier run that is not `let` is an identifier. */
  lemma IdentAt(src: string, i: nat, n: nat)
    requires 0 < n && i + n <= |src| && src[i..i + n] != "let"
    requires InClass(src[i], IdentStart) && AllIn(src[i + 1..i + n], IdentContinue)
    requires i + n < |src| ==> !InClass(src[i + n], IdentContinue)
    ensures StepAt(src, i) == Emit(Ok(Ident), n)
  {
    RunLengthStopsAt(src, i + 1, IdentContinue, n - 1);
    assert MatchLen(IdentName, src, i) == n;
    WordStep(src, i);
  }

  /** A whole prefixed literal whose digits parse to `v` is `Integer(v)`. */
  lemma PrefixedAt(rule: Rule, src: string, i: nat, n: nat, v: U128)
    requires IsPrefixed(rule) && 2 < n && i + n <= |src|
    requires src[i] == '0' && src[i + 1] == Marker(rule) && AllIn(src[i + 2..i + n], BodyClass(rule))
    requires i + n < |src| ==> !InClass(src[i + n], BodyClass(rule))
    requires ParseDigits(src[i + 2..i + n], Radix(rule)) == Ok(v)
    ensures StepAt(src, i) == Emit(Ok(Integer(v)), n)
  {
    RunLengthStopsAt(src, i + 2, BodyClass(rule), n - 2);
    assert MatchLen(rule, src, i) == n;
    PrefixedStep(rule, src, i);
  }

  /** A whole run of decimal digits that parses to `v`, followed by
      neither a word character nor a point, is `Integer(v)`. */
  lemma DecimalAt(src: string, i: nat, n: nat, v: U128)
    requires 0 < n && i + n <= |src| && AllIn(src[i..i + n], Digit)
    requires i + n < |src| ==> !InClass(src[i + n], IdentContinue) && src[i + n] != '.'
    requires ParseDigits(src[i..i + n], 10) == Ok(v)
    ensures StepAt(src, i) == Emit(Ok(Integer(v)), n)
  {
    assert InClass(src[i], Digit) by {
      assert src[i..i + n][0] == src[i];
    }
    if 2 <= n {
      assert InClass(src[i + 1], Digit) by {
        assert src[i..i + n][1] == src[i + 1];
      }
    }
    RunLengthStopsAt(src, i, Digit, n);
    assert AllIn(src[i..i + n], DecimalBody);
    RunLengthStopsAt(src, i, DecimalBody, n);
    DecimalStep(src, i);
  }

  // ---------------------------------------------------------------------
  // Keywords and literals

  /** `let` alone is the keyword. */
  lemma LetIsKeyword()
    ensures Tokenize("let") == [Item(Let, 0, 3)]
  {
    var src := "let";
    KeywordAt(src, 0);
    WholeSource(src, Ok(Let));
  }

  /** `let0` is an identifier: the identifier rule matches longer than the
      keyword. */
  lemma Let0IsIdent()
    ensures Tokenize("let0") == [Item(Ident, 0, 4)]
  {
    var src := "let0";
    assert AllIn(src[1..4], IdentContinue);
    IdentAt(src, 0, 4);
    WholeSource(src, Ok(Ident));
  }

  /** `from_str_radix` takes hexadecimal digits in either case. */
  lemma MixedCaseHexDigits()
    ensures ParseDigits("aB", 16) == Ok(0xab)
  {
  }

  /** A leading zero after the octal prefix is an ordinary digit: octal
      0456 is 302. */
  lemma LeadingZeroOctalDigits()
    ensures ParseDigits("0456", 8) == Ok(302)
  {
  }

  lemma DecimalDigits()
    ensures ParseDigits("34", 10) == Ok(34) && ParseDigits("1", 10) == Ok(1) && ParseDigits("0", 10) == Ok(0)
  {
  }

  /** `0xaB` is the integer 0xab. */
  lemma HexLiteral()
    ensures Tokenize("0xaB") == [Item(Integer(0xab), 0, 4)]
  {
    var src := "0xaB";
    MixedCaseHexDigits();
    assert src[2..4] == "aB";
    assert AllIn(src[2..4], HexBody);
    PrefixedAt(HexInt, src, 0, 4, 0xab);
    WholeSource(src, Ok(Integer(0xab)));
  }

  /** `0o0456` is the integer 302, octal 456. */
  lemma OctalLiteral()
    ensures Tokenize("0o0456") == [Item(Integer(302), 0, 6)]
  {
    var src := "0o0456";
    LeadingZeroOctalDigits();
    assert src[2..6] == "0456";
    assert AllIn(src[2..6], OctalBody);
    PrefixedAt(OctalInt, src, 0, 6, 302);
    WholeSource(src, Ok(Integer(302)));
  }

  /** `34` is the integer 34. */
  lemma DecimalLiteral()
    ensures Tokenize("34") == [Item(Integer(34), 0, 2)]
  {
    var src := "34";
    DecimalDigits();
    assert src[0..2] == "34";
    assert AllIn(src[0..2], Digit);
    DecimalAt(src, 0, 2, 34);
    WholeSource(src, Ok(Integer(34)));
  }

  // ---------------------------------------------------------------------
  // Skipped text and edge cases

  /** Whitespace alone yields no token. */
  lemma BlanksYieldNothing()
    ensures Tokenize(" \t\r\n ") == []
  {
    var src := " \t\r\n ";
    WhitespaceOnly(src);
  }

  /** `0x` with no digits after it is not a hexadecimal literal: it is the
      integer 0 followed by the identifier `x`. */
  lemma BarePrefix()
    ensures Tokenize("0x") == [Item(Integer(0), 0, 1), Item(Ident, 1, 2)]
  {
    var src := "0x";
    BarePrefixRounds(src);
    TokenizeFromEmit(src, 0, Ok(Integer(0)), 1);
    TokenizeFromEmit(src, 1, Ok(Ident), 1);
    TokenizeFromEnd(src);
    Last2(Tokenize(src), TokenizeFrom(src, 1), TokenizeFrom(src, 2), Item(Integer(0), 0, 1), Item(Ident, 1, 2));
  }

  /** The rounds in `0x`: the decimal `0`, since the prefixed form needs a
      digit after its prefix, then the identifier `x`. */
  lemma BarePrefixRounds(src: string)
    requires |src| == 2 && src[0] == '0' && src[1] == 'x'
    ensures StepAt(src, 0) == Emit(Ok(Integer(0)), 1)
    ensures StepAt(src, 1) == Emit(Ok(Ident), 1)
  {
    assert StepAt(src, 0) == Emit(Ok(Integer(0)), 1) by {
      DecimalDigits();
      assert src[0..1] == "0";
      RunLengthStopsAt(src, 0, DecimalBody, 1);
      RunLengthStopsAt(src, 0, Digit, 1);
      assert MatchLen(HexInt, src, 0) == 0;
      DecimalStep(src, 0);
    }
    IdentAt(src, 1, 1);
  }

  /** The comment rule takes exactly `//`, one character and a newline. */
  lemma ShortCommentSkipped()
    ensures Tokenize("//a\n") == []
  {
    var src := "//a\n";
    CommentSkipped(src, 0);
    TokenizeFromSkip(src, 0, 4);
    TokenizeFromEnd(src);
  }

  /** A longer line comment is not a comment to the lexer: `//ab` and a
      newline is two divisions and the identifier `ab`. */
  lemma LongCommentNotSkipped()
    ensures Tokenize("//ab\n") == [Item(Divide, 0, 1), Item(Divide, 1, 2), Item(Ident, 2, 4)]
  {
    var src := "//ab\n";
    LongCommentRounds(src);
    TokenizeFromEmit(src, 0, Ok(Divide), 1);
    TokenizeFromEmit(src, 1, Ok(Divide), 1);
    TokenizeFromEmit(src, 2, Ok(Ident), 2);
    TokenizeFromSkip(src, 4, 1);
    TokenizeFromEnd(src);
    Last3(Tokenize(src), TokenizeFrom(src, 1), TokenizeFrom(src, 2), TokenizeFrom(src, 4),
          Item(Divide, 0, 1), Item(Divide, 1, 2), Item(Ident, 2, 4));
  }

  /** The rounds in `//ab` and a newline: no comment matches, so each `/`
      is a division, then come the identifier and the newline. */
  lemma LongCommentRounds(src: string)
    requires |src| == 5 && src[0] == '/' && src[1] == '/' && src[2] == 'a' && src[3] == 'b' && src[4] == '\n'
    ensures StepAt(src, 0) == Emit(Ok(Divide), 1) && StepAt(src, 1) == Emit(Ok(Divide), 1)
    ensures StepAt(src, 2) == Emit(Ok(Ident), 2) && StepAt(src, 4) == Skip(1)
  {
    assert Spelling(Divide).value == "/";
    assert StepAt(src, 0) == Emit(Ok(Divide), 1) by {
      OperatorStep(src, 0, Divide);
    }
    assert StepAt(src, 1) == Emit(Ok(Divide), 1) by {
      OperatorStep(src, 1, Divide);
    }
    assert StepAt(src, 2) == Emit(Ok(Ident), 2) by {
      assert AllIn(src[3..4], IdentContinue);
      IdentAt(src, 2, 2);
    }
    assert StepAt(src, 4) == Skip(1) by {
      RunLengthStopsAt(src, 4, Space, 1);
      WhitespaceSkipped(src, 4);
    }
  }

  // ---------------------------------------------------------------------
  // The lexer's unit test

  /** The source the unit test lexes, `let let0=1==+!0xaB-0o0456*34/^&|&&||`,
      written in pieces of six characters. */
  const TestSource: string := "let le" + "t0=1==" + "+!0xaB" + "-0o045" + "6*34/^" + "&|&&||"

  /** The tokens the unit test expects, in order, each with its span. */
  const TestOutput: seq<Lexeme> := [
    Item(Let, 0, 3), Item(Ident, 4, 8), Item(Assign, 8, 9), Item(Integer(1), 9, 10),
    Item(Eq, 10, 12), Item(Plus, 12, 13), Item(Not, 13, 14), Item(Integer(0xab), 14, 18),
    Item(Minus, 18, 19), Item(Integer(302), 19, 25), Item(Asterisk, 25, 26), Item(Integer(34), 26, 28),
    Item(Divide, 28, 29), Item(Xor, 29, 30), Item(And, 30, 31), Item(Or, 31, 32),
    Item(AndAnd, 32, 34), Item(OrOr, 34, 36)]

  /** The characters of the unit test's source, one by one. */
  predicate IsTestSource(src: string) {
    && |src| == 36
    && src[0] == 'l' && src[1] == 'e' && src[2] == 't' && src[3] == ' ' && src[4] == 'l' && src[5] == 'e'
    && src[6] == 't' && src[7] == '0' && src[8] == '=' && src[9] == '1' && src[10] == '=' && src[11] == '='
    && src[12] == '+' && src[13] == '!' && src[14] == '0' && src[15] == 'x' && src[16] == 'a' && src[17] == 'B'
    && src[18] == '-' && src[19] == '0' && src[20] == 'o' && src[21] == '0' && src[22] == '4' && src[23] == '5'
    && src[24] == '6' && src[25] == '*' && src[26] == '3' && src[27] == '4' && src[28] == '/' && src[29] == '^'
    && src[30] == '&' && src[31] == '|' && src[32] == '&' && src[33] == '&' && src[34] == '|' && src[35] == '|'
  }

  /** The unit test: the lexer yields exactly the expected tokens with the
      expected spans, and nothing else. */
  lemma UnitTest()
    ensures Tokenize(TestSource) == TestOutput
  {
    TestSourceSpelled();
    TestOutputIn(TestSource);
  }

  /** `IsTestSource` spells out the unit test's source. */
  lemma TestSourceSpelled()
    ensures IsTestSource(TestSource)
  {
  }

  lemma TestOutputIn(src: string)
    requires IsTestSource(src)
    ensures Tokenize(src) == TestOutput
  {
    TestWords(src);
    TestOperators(src);
    TestMoreOperators(src);
    TestLogicOperators(src);
    TestDoubledOperators(src);
    TestDecimals(src);
    TestPrefixed(src);
    TestRun1(src);
    TestRun2(src);
    TestRun3(src);
    TestRun4(src);
    TestRun5(src);
    TestRun6(src);
    TokenizeFromEmit(src, 0, Ok(Let), 3);
    TokenizeFromSkip(src, 3, 1);
    TestAssemble(Tokenize(src), TokenizeFrom(src, 4), TokenizeFrom(src, 10), TokenizeFrom(src, 14),
                 TokenizeFrom(src, 25), TokenizeFrom(src, 29), TokenizeFrom(src, 32));
  }

  /** The runs of the expected output, put together. */
  lemma TestAssemble(whole: seq<Lexeme>, r4: seq<Lexeme>, r10: seq<Lexeme>, r14: seq<Lexeme>,
                     r25: seq<Lexeme>, r29: seq<Lexeme>, r32: seq<Lexeme>)
    requires whole == [Item(Let, 0, 3)] + r4
    requires r4 == [Item(Ident, 4, 8), Item(Assign, 8, 9), Item(Integer(1), 9, 10)] + r10
    requires r10 == [Item(Eq, 10, 12), Item(Plus, 12, 13), Item(Not, 13, 14)] + r14
    requires r14 == [Item(Integer(0xab), 14, 18), Item(Minus, 18, 19), Item(Integer(302), 19, 25)] + r25
    requires r25 == [Item(Asterisk, 25, 26), Item(Integer(34), 26, 28), Item(Divide, 28, 29)] + r29
    requires r29 == [Item(Xor, 29, 30), Item(And, 30, 31), Item(Or, 31, 32)] + r32
    requires r32 == [Item(AndAnd, 32, 34), Item(OrOr, 34, 36)]
    ensures whole == TestOutput
  {
  }

  /** Items 1 to 3 of the expected output, given the rounds that
      produce them. */
  lemma TestRun1(src: string)
    requires |src| == 36
    requires StepAt(src, 4) == Emit(Ok(Ident), 4) && StepAt(src, 8) == Emit(Ok(Assign), 1)
    requires StepAt(src, 9) == Emit(Ok(Integer(1)), 1)
    ensures TokenizeFrom(src, 4) == [Item(Ident, 4, 8), Item(Assign, 8, 9), Item(Integer(1), 9, 10)] + TokenizeFrom(src, 10)
  {
    TokenizeFromEmit(src, 4, Ok(Ident), 4);
    TokenizeFromEmit(src, 8, Ok(Assign), 1);
    TokenizeFromEmit(src, 9, Ok(Integer(1)), 1);
    Cons3(TokenizeFrom(src, 4), TokenizeFrom(src, 8), TokenizeFrom(src, 9), TokenizeFrom(src, 10),
          Item(Ident, 4, 8), Item(Assign, 8, 9), Item(Integer(1), 9, 10));
  }

  /** Items 4 to 6 of the expected output, given the rounds that
      produce them. */
  lemma TestRun2(src: string)
    requires |src| == 36
    requires StepAt(src, 10) == Emit(Ok(Eq), 2) && StepAt(src, 12) == Emit(Ok(Plus), 1)
    requires StepAt(src, 13) == Emit(Ok(Not), 1)
    ensures TokenizeFrom(src, 10) == [Item(Eq, 10, 12), Item(Plus, 12, 13), Item(Not, 13, 14)] + TokenizeFrom(src, 14)
  {
    TokenizeFromEmit(src, 10, Ok(Eq), 2);
    TokenizeFromEmit(src, 12, Ok(Plus), 1);
    TokenizeFromEmit(src, 13, Ok(Not), 1);
    Cons3(TokenizeFrom(src, 10), TokenizeFrom(src, 12), TokenizeFrom(src, 13), TokenizeFrom(src, 14),
          Item(Eq, 10, 12), Item(Plus, 12, 13), Item(Not, 13, 14));
  }

  /** Items 7 to 9 of the expected output, given the rounds that
      produce them. */
  lemma TestRun3(src: string)
    requires |src| == 36
    requires StepAt(src, 14) == Emit(Ok(Integer(0xab)), 4) && StepAt(src, 18) == Emit(Ok(Minus), 1)
    requires StepAt(src, 19) == Emit(Ok(Integer(302)), 6)
    ensures TokenizeFrom(src, 14) == [Item(Integer(0xab), 14, 18), Item(Minus, 18, 19), Item(Integer(302), 19, 25)] + TokenizeFrom(src, 25)
  {
    TokenizeFromEmit(src, 14, Ok(Integer(0xab)), 4);
    TokenizeFromEmit(src, 18, Ok(Minus), 1);
    TokenizeFromEmit(src, 19, Ok(Integer(302)), 6);
    Cons3(TokenizeFrom(src, 14), TokenizeFrom(src, 18), TokenizeFrom(src, 19), TokenizeFrom(src, 25),
          Item(Integer(0xab), 14, 18), Item(Minus, 18, 19), Item(Integer(302), 19, 25));
  }

  /** Items 10 to 12 of the expected output, given the rounds that
      produce them. */
  lemma TestRun4(src: string)
    requires |src| == 36
    requires StepAt(src, 25) == Emit(Ok(Asterisk), 1) && StepAt(src, 26) == Emit(Ok(Integer(34)), 2)
    requires StepAt(src, 28) == Emit(Ok(Divide), 1)
    ensures TokenizeFrom(src, 25) == [Item(Asterisk, 25, 26), Item(Integer(34), 26, 28), Item(Divide, 28, 29)] + TokenizeFrom(src, 29)
  {
    TokenizeFromEmit(src, 25, Ok(Asterisk), 1);
    TokenizeFromEmit(src, 26, Ok(Integer(34)), 2);
    TokenizeFromEmit(src, 28, Ok(Divide), 1);
    Cons3(TokenizeFrom(src, 25), TokenizeFrom(src, 26), TokenizeFrom(src, 28), TokenizeFrom(src, 29),
          Item(Asterisk, 25, 26), Item(Integer(34), 26, 28), Item(Divide, 28, 29));
  }

  /** Items 13 to 15 of the expected output, given the rounds that
      produce them. */
  lemma TestRun5(src: string)
    requires |src| == 36
    requires StepAt(src, 29) == Emit(Ok(Xor), 1) && StepAt(src, 30) == Emit(Ok(And), 1)
    requires StepAt(src, 31) == Emit(Ok(Or), 1)
    ensures TokenizeFrom(src, 29) == [Item(Xor, 29, 30), Item(And, 30, 31), Item(Or, 31, 32)] + TokenizeFrom(src, 32)
  {
    TokenizeFromEmit(src, 29, Ok(Xor), 1);
    TokenizeFromEmit(src, 30, Ok(And), 1);
    TokenizeFromEmit(src, 31, Ok(Or), 1);
    Cons3(TokenizeFrom(src, 29), TokenizeFrom(src, 30), TokenizeFrom(src, 31), TokenizeFrom(src, 32),
          Item(Xor, 29, 30), Item(And, 30, 31), Item(Or, 31, 32));
  }

  /** Items 16 to 17 of the expected output, given the rounds that
      produce them. */
  lemma TestRun6(src: string)
    requires |src| == 36
    requires StepAt(src, 32) == Emit(Ok(AndAnd), 2) && StepAt(src, 34) == Emit(Ok(OrOr), 2)
    ensures TokenizeFrom(src, 32) == [Item(AndAnd, 32, 34), Item(OrOr, 34, 36)]
  {
    TokenizeFromEmit(src, 32, Ok(AndAnd), 2);
    TokenizeFromEmit(src, 34, Ok(OrOr), 2);
    TokenizeFromEnd(src);
    Last2(TokenizeFrom(src, 32), TokenizeFrom(src, 34), TokenizeFrom(src, 36), Item(AndAnd, 32, 34), Item(OrOr, 34, 36));
  }

  /** The words of the unit test's source: `let` is the keyword, the blank
      is passed over, and `let0` is an identifier. */
  lemma TestWords(src: string)
    requires IsTestSource(src)
    ensures StepAt(src, 0) == Emit(Ok(Let), 3)
    ensures StepAt(src, 3) == Skip(1)
    ensures StepAt(src, 4) == Emit(Ok(Ident), 4)
  {
    KeywordAt(src, 0);
    assert StepAt(src, 3) == Skip(1) by {
      RunLengthStopsAt(src, 3, Space, 1);
      WhitespaceSkipped(src, 3);
    }
    assert StepAt(src, 4) == Emit(Ok(Ident), 4) by {
      assert AllIn(src[5..8], IdentContinue);
      IdentAt(src, 4, 4);
    }
  }

  /** The decimal literals of the unit test's source. */
  lemma TestDecimals(src: string)
    requires IsTestSource(src)
    ensures StepAt(src, 9) == Emit(Ok(Integer(1)), 1)
    ensures StepAt(src, 26) == Emit(Ok(Integer(34)), 2)
  {
    DecimalDigits();
    assert StepAt(src, 9) == Emit(Ok(Integer(1)), 1) by {
      assert src[9..10] == "1";
      DecimalAt(src, 9, 1, 1);
    }
    assert StepAt(src, 26) == Emit(Ok(Integer(34)), 2) by {
      assert src[26..28] == "34";
      DecimalAt(src, 26, 2, 34);
    }
  }

  /** The prefixed literals of the unit test's source: hexadecimal with
      digits of both cases, and octal with a leading zero. */
  lemma TestPrefixed(src: string)
    requires IsTestSource(src)
    ensures StepAt(src, 14) == Emit(Ok(Integer(0xab)), 4)
    ensures StepAt(src, 19) == Emit(Ok(Integer(302)), 6)
  {
    MixedCaseHexDigits();
    LeadingZeroOctalDigits();
    assert StepAt(src, 14) == Emit(Ok(Integer(0xab)), 4) by {
      assert src[16..18] == "aB";
      PrefixedAt(HexInt, src, 14, 4, 0xab);
    }
    assert StepAt(src, 19) == Emit(Ok(Integer(302)), 6) by {
      assert src[21..25] == "0456";
      PrefixedAt(OctalInt, src, 19, 6, 302);
    }
  }

  /** The operators in the first half of the unit test's source, each
      read as the longest spelling that fits: `==`, but `=` before `1`. */
  lemma TestOperators(src: string)
    requires IsTestSource(src)
    ensures StepAt(src, 8) == Emit(Ok(Assign), 1)
    ensures StepAt(src, 10) == Emit(Ok(Eq), 2)
    ensures StepAt(src, 12) == Emit(Ok(Plus), 1)
  {
    assert Spelling(Assign).value == "=" && Spelling(Eq).value == "==" && Spelling(Plus).value == "+";
    assert StepAt(src, 8) == Emit(Ok(Assign), 1) by { OperatorStep(src, 8, Assign); }
    assert StepAt(src, 10) == Emit(Ok(Eq), 2) by { OperatorStep(src, 10, Eq); }
    assert StepAt(src, 12) == Emit(Ok(Plus), 1) by { OperatorStep(src, 12, Plus); }
  }

  /** More operators of the unit test's source, each one character long. */
  lemma TestMoreOperators(src: string)
    requires IsTestSource(src)
    ensures StepAt(src, 13) == Emit(Ok(Not), 1)
    ensures StepAt(src, 18) == Emit(Ok(Minus), 1)
    ensures StepAt(src, 25) == Emit(Ok(Asterisk), 1)
  {
    assert Spelling(Not).value == "!" && Spelling(Minus).value == "-" && Spelling(Asterisk).value == "*";
    assert StepAt(src, 13) == Emit(Ok(Not), 1) by { OperatorStep(src, 13, Not); }
    assert StepAt(src, 18) == Emit(Ok(Minus), 1) by { OperatorStep(src, 18, Minus); }
    assert StepAt(src, 25) == Emit(Ok(Asterisk), 1) by { OperatorStep(src, 25, Asterisk); }
  }

  /** Operators near the end of the unit test's source: `/` not followed
      by a comment, and `&` before `|`, which is no operator together. */
  lemma TestLogicOperators(src: string)
    requires IsTestSource(src)
    ensures StepAt(src, 28) == Emit(Ok(Divide), 1)
    ensures StepAt(src, 29) == Emit(Ok(Xor), 1)
    ensures StepAt(src, 30) == Emit(Ok(And), 1)
  {
    assert Spelling(Divide).value == "/" && Spelling(Xor).value == "^" && Spelling(And).value == "&";
    assert StepAt(src, 28) == Emit(Ok(Divide), 1) by { OperatorStep(src, 28, Divide); }
    assert StepAt(src, 29) == Emit(Ok(Xor), 1) by { OperatorStep(src, 29, Xor); }
    assert StepAt(src, 30) == Emit(Ok(And), 1) by { OperatorStep(src, 30, And); }
  }

  /** The last operators of the unit test's source: a lone `|`, then `&&`
      and `||` each read as one token. */
  lemma TestDoubledOperators(src: string)
    requires IsTestSource(src)
    ensures StepAt(src, 31) == Emit(Ok(Or), 1)
    ensures StepAt(src, 32) == Emit(Ok(AndAnd), 2)
    ensures StepAt(src, 34) == Emit(Ok(OrOr), 2)
  {
    assert Spelling(Or).value == "|" && Spelling(AndAnd).value == "&&" && Spelling(OrOr).value == "||";
    assert StepAt(src, 31) == Emit(Ok(Or), 1) by { OperatorStep(src, 31, Or); }
    assert StepAt(src, 32) == Emit(Ok(AndAnd), 2) by { OperatorStep(src, 32, AndAnd); }
    assert StepAt(src, 34) == Emit(Ok(OrOr), 2) by { OperatorStep(src, 34, OrOr); }
  }
}

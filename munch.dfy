/** What one round of the lexer does at a cursor, by the character found
    there: whitespace and comments are passed over, operators are read
    longest first, an identifier-shaped word is the keyword only when it is
    exactly `let`, and each literal form is read whole. */
module Munch {
  import opened Wrappers
  import opened Tokens
  import opened Literals
  import opened Patterns
  import opened Scanner

  /** A rule that is the only one matching at `i` wins there. */
  lemma SoleMatchWins(rule: Rule, src: string, i: nat)
    requires i <= |src| && MatchLen(rule, src, i) > 0
    requires forall q :: q != rule ==> MatchLen(q, src, i) == 0
    ensures Wins(rule, src, i)
  {
    forall q
      ensures Outranks(rule, q, src, i)
    {
      if q != rule {
        assert MatchLen(q, src, i) == 0;
      }
    }
  }

  /** Whitespace is passed over whole: the round at a whitespace character
      skips the entire run. */
  lemma WhitespaceSkipped(src: string, i: nat)
    requires i < |src| && InClass(src[i], Space)
    ensures StepAt(src, i) == Skip(RunLength(src, i, Space))
  {
    forall q
      ensures Outranks(SkipWhitespace, q, src, i)
    {
      MatchStarts(q, src, i);
      if MatchLen(q, src, i) > 0 {
        StartersAtSpace(src[i], q);
      }
    }
    StepOfWinner(SkipWhitespace, src, i);
  }

  /** A source of whitespace alone yields nothing. */
  lemma WhitespaceOnly(src: string)
    requires AllIn(src, Space)
    ensures Tokenize(src) == []
  {
    if src != [] {
      assert src[0..|src|] == src;
      RunLengthStopsAt(src, 0, Space, |src|);
      WhitespaceSkipped(src, 0);
      TokenizeFromSkip(src, 0, |src|);
    }
    TokenizeFromEnd(src);
  }

  /** No item of the output begins at a whitespace character. */
  lemma NoItemAtWhitespace(src: string)
    ensures forall k :: 0 <= k < |Tokenize(src)| ==> !InClass(src[Tokenize(src)[k].span.start], Space)
  {
    var r := Tokenize(src);
    TokenizeFromWellPlaced(src, 0);
    forall k | 0 <= k < |r|
      ensures !InClass(src[r[k].span.start], Space)
    {
      if InClass(src[r[k].span.start], Space) {
        WhitespaceSkipped(src, r[k].span.start);
      }
    }
  }

  /** The comment rule, where it matches, is passed over: four characters
      `//`, one character other than a newline, and a newline. */
  lemma CommentSkipped(src: string, i: nat)
    requires i < |src| && MatchLen(SkipComment, src, i) > 0
    ensures StepAt(src, i) == Skip(4)
  {
    assert IsOperatorChar(src[i]);
    forall q
      ensures Outranks(SkipComment, q, src, i)
    {
      MatchStarts(q, src, i);
      if MatchLen(q, src, i) > 0 {
        StartersAtOperator(src[i], q);
        if q.Fixed? {
          FixedStart(q.t);
        }
      }
    }
    StepOfWinner(SkipComment, src, i);
  }

  /** Maximal munch among the operators: at an operator character that
      does not begin a comment, the longest spelling the input continues
      with is the token, however many shorter spellings also fit. */
  lemma OperatorStep(src: string, i: nat, t: Token)
    requires i < |src| && IsOperatorChar(src[i]) && MatchLen(SkipComment, src, i) == 0
    requires LongestFixed(src, i) == Some(t)
    ensures Spelling(t).Some? && Spelling(t).value <= src[i..]
    ensures StepAt(src, i) == Emit(Ok(t), |Spelling(t).value|)
  {
    LongestFixedCorrect(src, i);
    forall q
      ensures Outranks(Fixed(t), q, src, i)
    {
      MatchStarts(q, src, i);
      if MatchLen(q, src, i) > 0 {
        StartersAtOperator(src[i], q);
      }
    }
    StepOfWinner(Fixed(t), src, i);
  }

  /** Keyword or identifier: a word that starts like an identifier is read
      to the end of its identifier run; it is `Let` when the run is exactly
      `let`, and `Ident` otherwise, so `let0` or `letter` is an
      identifier. */
  lemma WordStep(src: string, i: nat)
    requires i < |src| && InClass(src[i], IdentStart)
    ensures var n := MatchLen(IdentName, src, i);
      && 0 < n
      && StepAt(src, i) == if src[i..i + n] == "let" then Emit(Ok(Let), 3) else Emit(Ok(Ident), n)
  {
    var n := MatchLen(IdentName, src, i);
    var w := src[i..i + n];
    RunLengthSubclass(src, i, DecimalBody, IdentContinue);
    if w == "let" {
      FixedLongest(Let, src, i);
      assert src[i..][..3] == w;
      forall q
        ensures Outranks(Fixed(Let), q, src, i)
      {
        MatchStarts(q, src, i);
        if MatchLen(q, src, i) > 0 {
          StartersAtWord(src[i], q);
        }
      }
      StepOfWinner(Fixed(Let), src, i);
    } else {
      forall q
        ensures Outranks(IdentName, q, src, i)
      {
        MatchStarts(q, src, i);
        if MatchLen(q, src, i) > 0 {
          StartersAtWord(src[i], q);
          if q == Fixed(Let) {
            KeywordShorter(src, i);
          }
        }
      }
      StepOfWinner(IdentName, src, i);
    }
  }

  /** Where the keyword's spelling fits but the identifier run is not
      exactly `let`, the run is longer than the keyword. */
  lemma KeywordShorter(src: string, i: nat)
    requires i < |src| && MatchLen(Fixed(Let), src, i) > 0
    requires src[i..i + MatchLen(IdentName, src, i)] != "let"
    ensures 3 < MatchLen(IdentName, src, i)
  {
    FixedLongest(Let, src, i);
    assert src[i..i + 3] == "let";
    RunLengthAtLeast(src, i + 1, IdentContinue, 2);
  }

  /** The radix of each prefixed integer form. */
  function Radix(rule: Rule): (r: nat)
    requires IsPrefixed(rule)
    ensures 2 <= r <= 36
  {
    match rule
    case HexInt => 16
    case BinaryInt => 2
    case OctalInt => 8
  }

  /** The character class that holds the digits after each prefix. */
  function BodyClass(rule: Rule): CharClass
    requires IsPrefixed(rule)
  {
    match rule
    case HexInt => HexBody
    case BinaryInt => BinaryBody
    case OctalInt => OctalBody
  }

  /** The second character of each prefix. */
  function Marker(rule: Rule): char
    requires IsPrefixed(rule)
  {
    match rule
    case HexInt => 'x'
    case BinaryInt => 'b'
    case OctalInt => 'o'
  }

  /** A prefixed integer literal is read whole, and its digits after the
      two-character prefix are parsed in its radix: `0xaB` is 171 and
      `0o0456` is 302. */
  lemma PrefixedStep(rule: Rule, src: string, i: nat)
    requires i < |src| && IsPrefixed(rule) && MatchLen(rule, src, i) > 0
    ensures var n := MatchLen(rule, src, i);
      StepAt(src, i) == Emit(IntegerItem(ParseDigits(src[i + 2..i + n], Radix(rule))), n)
  {
    var n := MatchLen(rule, src, i);
    assert src[i] == '0';
    forall q
      ensures Outranks(rule, q, src, i)
    {
      MatchStarts(q, src, i);
      if MatchLen(q, src, i) > 0 {
        StartersAtDigit(src[i], q);
        if q == DecimalInt {
          assert !InClass(src[i + 1], DecimalBody);
          RunLengthStopsAt(src, i, DecimalBody, 1);
        } else if q == FloatLit {
          RunLengthStopsAt(src, i, Digit, 1);
        }
      }
    }
    StepOfWinner(rule, src, i);
    assert src[i..i + n][2..] == src[i + 2..i + n];
  }

  /** A float literal is read whole and keeps its text. */
  lemma FloatStep(src: string, i: nat)
    requires i < |src| && MatchLen(FloatLit, src, i) > 0
    ensures var n := MatchLen(FloatLit, src, i);
      StepAt(src, i) == Emit(Ok(Float(src[i..i + n])), n)
  {
    forall q
      ensures Outranks(FloatLit, q, src, i)
    {
      FloatOutranks(q, src, i);
    }
    StepOfWinner(FloatLit, src, i);
  }

  /** Where a float matches, it outranks every rule: only number forms can
      begin there, and the decimal run stops at the point. */
  lemma FloatOutranks(q: Rule, src: string, i: nat)
    requires i < |src| && MatchLen(FloatLit, src, i) > 0
    ensures Outranks(FloatLit, q, src, i)
  {
    MatchStarts(q, src, i);
    if MatchLen(q, src, i) > 0 {
      if src[i] == '.' {
        StartersAtPoint(q);
      } else {
        StartersAtDigit(src[i], q);
        if q == DecimalInt {
          DecimalShorterThanFloat(src, i);
        } else if IsPrefixed(q) {
          PrefixedNotAtFloat(q, src, i);
        }
      }
    }
  }

  /** No float matches where a prefixed form does: its radix letter is
      neither a digit nor a point. */
  lemma PrefixedNotAtFloat(q: Rule, src: string, i: nat)
    requires i < |src| && IsPrefixed(q) && MatchLen(q, src, i) > 0
    ensures MatchLen(FloatLit, src, i) == 0
  {
    assert src[i] == '0' && src[i + 1] == Marker(q);
    assert RunLength(src, i + 1, Digit) == 0;
    assert RunLength(src, i, Digit) == 1;
  }

  /** The decimal run at a float stops at the float's point, so the float
      match is the longer. */
  lemma DecimalShorterThanFloat(src: string, i: nat)
    requires i < |src| && MatchLen(FloatLit, src, i) > 0
    ensures MatchLen(DecimalInt, src, i) < MatchLen(FloatLit, src, i)
  {
    var k := RunLength(src, i, Digit);
    RunLengthLongest(src, i, Digit);
    assert AllIn(src[i..i + k], DecimalBody);
    RunLengthStopsAt(src, i, DecimalBody, k);
  }

  /** A decimal literal is read whole and parsed in base 10, unless a
      float or a prefixed form matches at the same place. */
  lemma DecimalStep(src: string, i: nat)
    requires i < |src| && InClass(src[i], Digit)
    requires MatchLen(FloatLit, src, i) == 0
    requires MatchLen(HexInt, src, i) == 0 && MatchLen(BinaryInt, src, i) == 0 && MatchLen(OctalInt, src, i) == 0
    ensures var n := MatchLen(DecimalInt, src, i);
      && 0 < n
      && StepAt(src, i) == Emit(IntegerItem(ParseDigits(src[i..i + n], 10)), n)
  {
    forall q
      ensures Outranks(DecimalInt, q, src, i)
    {
      MatchStarts(q, src, i);
      if MatchLen(q, src, i) > 0 {
        StartersAtDigit(src[i], q);
      }
    }
    StepOfWinner(DecimalInt, src, i);
  }
}

/** Integer literals through the whole lexer: the text `Render` gives for a
    `u128`, written in any of the four literal forms, lexes to a single
    `Integer` token with that value spanning the whole source. */
module RoundTrip {
  import opened Wrappers
  import opened Tokens
  import opened Literals
  import opened Patterns
  import opened Scanner
  import opened Munch

  /** Every character `Render` writes lies in a class that holds all the
      digits of the radix. */
  lemma {:induction false} RenderInClass(n: nat, radix: nat, cls: CharClass)
    requires 2 <= radix <= 36
    requires forall d: nat :: d < radix ==> InClass(DigitChar(d), cls)
    ensures AllIn(Render(n, radix), cls)
    decreases n
  {
    if radix <= n {
      DivShrinks(n, radix);
      RenderInClass(n / radix, radix, cls);
      var q := Render(n / radix, radix);
      forall k | 0 <= k < |Render(n, radix)|
        ensures InClass(Render(n, radix)[k], cls)
      {
        if k < |q| {
          assert Render(n, radix)[k] == q[k];
        }
      }
    }
  }

  /** The digits of each radix lie in its body class. */
  lemma DigitsInBody(rule: Rule)
    requires IsPrefixed(rule)
    ensures forall d: nat :: d < Radix(rule) ==> InClass(DigitChar(d), BodyClass(rule))
  {
  }

  /** The text of a prefixed literal is one match of its rule, and its
      digits are the rendering. */
  lemma PrefixedText(rule: Rule, n: nat, src: string)
    requires IsPrefixed(rule) && src == ['0', Marker(rule)] + Render(n, Radix(rule))
    ensures MatchLen(rule, src, 0) == |src|
    ensures src[2..|src|] == Render(n, Radix(rule))
  {
    var w := Render(n, Radix(rule));
    DigitsInBody(rule);
    RenderInClass(n, Radix(rule), BodyClass(rule));
    RenderValue(n, Radix(rule));
    assert src[2..2 + |w|] == w;
    RunLengthStopsAt(src, 2, BodyClass(rule), |w|);
  }

  /** `0x`, `0b` or `0o` followed by the rendering of `n` in that radix is
      one `Integer(n)` token over the whole source. */
  lemma PrefixedRoundTrip(rule: Rule, n: U128)
    requires IsPrefixed(rule)
    ensures var src := ['0', Marker(rule)] + Render(n, Radix(rule));
      Tokenize(src) == [Lexeme(Ok(Integer(n)), Span(0, |src|))]
  {
    var src := ['0', Marker(rule)] + Render(n, Radix(rule));
    PrefixedSourceStep(rule, n, src);
    WholeSource(src, Ok(Integer(n)));
  }

  /** The first round over a prefixed rendering reads all of it as
      `Integer(n)`. */
  lemma PrefixedSourceStep(rule: Rule, n: U128, src: string)
    requires IsPrefixed(rule) && src == ['0', Marker(rule)] + Render(n, Radix(rule))
    ensures StepAt(src, 0) == Emit(Ok(Integer(n)), |src|)
  {
    PrefixedText(rule, n, src);
    PrefixedStep(rule, src, 0);
    ParseRender(n, Radix(rule));
  }

  /** A decimal rendering is one match of the decimal rule, and no float
      or prefixed form matches it. */
  lemma DecimalText(n: nat, src: string)
    requires src == Render(n, 10)
    ensures 0 < |src| && InClass(src[0], Digit)
    ensures MatchLen(DecimalInt, src, 0) == |src|
    ensures MatchLen(FloatLit, src, 0) == 0
    ensures MatchLen(HexInt, src, 0) == 0 && MatchLen(BinaryInt, src, 0) == 0 && MatchLen(OctalInt, src, 0) == 0
  {
    RenderInClass(n, 10, Digit);
    RenderInClass(n, 10, DecimalBody);
    RenderValue(n, 10);
    assert src[0..|src|] == src;
    RunLengthStopsAt(src, 0, Digit, |src|);
    RunLengthStopsAt(src, 0, DecimalBody, |src|);
    assert InClass(src[0], Digit);
    if 2 <= |src| {
      assert InClass(src[1], Digit);
    }
  }

  /** The decimal rendering of `n`, without prefix, is one `Integer(n)`
      token over the whole source. */
  lemma DecimalRoundTrip(n: U128)
    ensures var src := Render(n, 10);
      Tokenize(src) == [Lexeme(Ok(Integer(n)), Span(0, |src|))]
  {
    var src := Render(n, 10);
    DecimalText(n, src);
    DecimalStep(src, 0);
    ParseRender(n, 10);
    assert src[0..|src|] == src;
    WholeSource(src, Ok(Integer(n)));
  }

  /** A decimal literal above the `u128` maximum lexes to one overflow
      error over the whole source, where the source's `.unwrap()` would
      panic. */
  lemma DecimalOverflow(n: nat)
    requires U128Limit <= n
    ensures var src := Render(n, 10);
      Tokenize(src) == [Lexeme(Err(BadInteger(PosOverflow)), Span(0, |src|))]
  {
    var src := Render(n, 10);
    DecimalText(n, src);
    DecimalStep(src, 0);
    RenderValue(n, 10);
    ParseDigitsCorrect(src, 10);
    assert src[0..|src|] == src;
    WholeSource(src, Err(BadInteger(PosOverflow)));
  }

  /** A prefixed literal above the `u128` maximum lexes to one overflow
      error over the whole source. */
  lemma PrefixedOverflow(rule: Rule, n: nat)
    requires IsPrefixed(rule) && U128Limit <= n
    ensures var src := ['0', Marker(rule)] + Render(n, Radix(rule));
      Tokenize(src) == [Lexeme(Err(BadInteger(PosOverflow)), Span(0, |src|))]
  {
    var src := ['0', Marker(rule)] + Render(n, Radix(rule));
    PrefixedText(rule, n, src);
    PrefixedStep(rule, src, 0);
    RenderValue(n, Radix(rule));
    ParseDigitsCorrect(Render(n, Radix(rule)), Radix(rule));
    WholeSource(src, Err(BadInteger(PosOverflow)));
  }
}

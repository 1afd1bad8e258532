/** Integer literal values: the standard library's `u128::from_str_radix`
    (and `str::parse::<u128>`, which is the same in base 10) as the integer
    callbacks of the lexer use it, and a positional reading of digit strings
    to check it against. */
module Literals {
  import opened Wrappers
  import opened Tokens

  /** `char::to_digit(radix)`: `0`-`9`, then `a`-`z` or `A`-`Z` as 10-35,
      valid only below the radix. */
  function DigitOf(c: char, radix: nat): (r: Option<nat>)
    requires 2 <= radix <= 36
    ensures r.Some? ==> r.value < radix
    ensures c == '_' ==> r.None?
  {
    var d :=
      if '0' <= c <= '9' then c as int - '0' as int
      else if 'a' <= c <= 'z' then c as int - 'a' as int + 10
      else if 'A' <= c <= 'Z' then c as int - 'A' as int + 10
      else 36;
    if d < radix then Some(d) else None
  }

  /** Letters are digits regardless of case: an upper-case letter reads as
      its lower-case counterpart. */
  lemma DigitOfUpperCase(c: char, radix: nat)
    requires 2 <= radix <= 36 && 'A' <= c <= 'Z'
    ensures DigitOf(c, radix) == DigitOf((c as int - 'A' as int + 'a' as int) as char, radix)
  {
  }

  predicate AllDigits(s: string, radix: nat)
    requires 2 <= radix <= 36
  {
    forall k :: 0 <= k < |s| ==> DigitOf(s[k], radix).Some?
  }

  /** The number a digit string denotes, most significant digit first. */
  function Value(s: string, radix: nat): nat
    requires 2 <= radix <= 36 && AllDigits(s, radix)
  {
    if s == [] then 0
    else Value(s[..|s| - 1], radix) * radix + DigitOf(s[|s| - 1], radix).value
  }

  /** The ways `from_str_radix` fails on the texts the lexer hands it. */
  datatype IntError = Empty | InvalidDigit | PosOverflow

  /** `u128::from_str_radix(s, radix)` for an unsigned text with no sign:
      the digits are read left to right, and the first digit that is not a
      digit of the radix, or the first step whose value leaves `u128`,
      decides the error. */
  function ParseDigits(s: string, radix: nat): (r: Result<U128, IntError>)
    requires 2 <= radix <= 36
    ensures r == Err(Empty) <==> s == []
  {
    if s == [] then Err(Empty) else ParseFrom(s, radix, 0, 0)
  }

  /** The accumulation loop: `acc` is the value of `s[..k]`. It never
      reports an empty text, and the value it returns is never below the
      accumulator it started from. */
  function ParseFrom(s: string, radix: nat, k: nat, acc: U128): (r: Result<U128, IntError>)
    requires 2 <= radix <= 36 && k <= |s|
    ensures r != Err(Empty)
    ensures r.Ok? ==> acc <= r.value
    decreases |s| - k
  {
    if k == |s| then Ok(acc)
    else match DigitOf(s[k], radix)
      case None => Err(InvalidDigit)
      case Some(d) =>
        MulGrows(acc, radix);
        var next := acc * radix + d;
        if next < U128Limit then ParseFrom(s, radix, k + 1, next) else Err(PosOverflow)
  }

  lemma {:induction false} AllDigitsPrefix(s: string, radix: nat, j: nat)
    requires 2 <= radix <= 36 && AllDigits(s, radix) && j <= |s|
    ensures AllDigits(s[..j], radix)
  {
  }

  /** A longer digit string never denotes less than its prefix. */
  lemma {:induction false} ValuePrefixMonotone(s: string, radix: nat, j: nat)
    requires 2 <= radix <= 36 && AllDigits(s, radix) && j <= |s|
    ensures AllDigits(s[..j], radix) && Value(s[..j], radix) <= Value(s, radix)
    decreases |s|
  {
    AllDigitsPrefix(s, radix, j);
    if j < |s| {
      var init := s[..|s| - 1];
      AllDigitsPrefix(s, radix, |s| - 1);
      ValuePrefixMonotone(init, radix, j);
      assert init[..j] == s[..j];
      var v := Value(init, radix);
      assert Value(s, radix) == v * radix + DigitOf(s[|s| - 1], radix).value;
      MulGrows(v, radix);
    } else {
      assert s[..j] == s;
    }
  }

  lemma MulGrows(v: nat, radix: nat)
    requires 1 <= radix
    ensures v <= v * radix
  {
    assert v * radix == v + v * (radix - 1);
  }

  lemma {:induction false} ParseFromCorrect(s: string, radix: nat, k: nat, acc: U128)
    requires 2 <= radix <= 36 && k <= |s|
    requires AllDigits(s[..k], radix) && acc == Value(s[..k], radix)
    ensures AllDigits(s, radix) && Value(s, radix) < U128Limit ==> ParseFrom(s, radix, k, acc) == Ok(Value(s, radix))
    ensures AllDigits(s, radix) && U128Limit <= Value(s, radix) ==> ParseFrom(s, radix, k, acc) == Err(PosOverflow)
    ensures ParseFrom(s, radix, k, acc).Ok? ==> AllDigits(s, radix) && Value(s, radix) < U128Limit
    decreases |s| - k
  {
    if k == |s| {
      assert s[..k] == s;
    } else {
      match DigitOf(s[k], radix)
      case None =>
      case Some(d) =>
        var next := acc * radix + d;
        var pre := s[..k + 1];
        assert pre[..k] == s[..k];
        assert AllDigits(pre, radix);
        assert next == Value(pre, radix);
        if next < U128Limit {
          ParseFromCorrect(s, radix, k + 1, next);
        } else if AllDigits(s, radix) {
          ValuePrefixMonotone(s, radix, k + 1);
        }
    }
  }

  /** `from_str_radix` succeeds exactly on a non-empty string of digits of
      the radix whose value fits in `u128`, and then returns that value; a
      well-formed string that is too large overflows. */
  lemma ParseDigitsCorrect(s: string, radix: nat)
    requires 2 <= radix <= 36
    ensures ParseDigits(s, radix).Ok? <==> s != [] && AllDigits(s, radix) && Value(s, radix) < U128Limit
    ensures ParseDigits(s, radix).Ok? ==> ParseDigits(s, radix).value == Value(s, radix)
    ensures s != [] && AllDigits(s, radix) && U128Limit <= Value(s, radix) ==> ParseDigits(s, radix) == Err(PosOverflow)
    ensures s == [] ==> ParseDigits(s, radix) == Err(Empty)
  {
    if s != [] {
      assert s[..0] == [];
      ParseFromCorrect(s, radix, 0, 0);
    }
  }

  /** An underscore is never a digit, so `from_str_radix` rejects every
      literal text that contains one. */
  lemma UnderscoreRejected(s: string, radix: nat, k: nat)
    requires 2 <= radix <= 36 && k < |s| && s[k] == '_'
    ensures ParseDigits(s, radix).Err?
  {
    ParseDigitsCorrect(s, radix);
  }

  /** The lower-case digit for `d`. */
  function DigitChar(d: nat): char
    requires d < 36
  {
    if d < 10 then ('0' as int + d) as char else ('a' as int + d - 10) as char
  }

  /** `DigitChar` writes a digit that `char::to_digit` reads back in every
      radix above it. */
  lemma DigitCharValue(d: nat, radix: nat)
    requires 2 <= radix <= 36 && d < radix
    ensures DigitOf(DigitChar(d), radix) == Some(d)
  {
  }

  /** The shortest textual rendering of `n` in the radix, lower-case. */
  function Render(n: nat, radix: nat): (r: string)
    requires 2 <= radix <= 36
    decreases n
  {
    if n < radix then [DigitChar(n)]
    else
      DivShrinks(n, radix);
      Render(n / radix, radix) + [DigitChar(n % radix)]
  }

  /** The rendering denotes the number it renders. */
  lemma {:induction false} RenderValue(n: nat, radix: nat)
    requires 2 <= radix <= 36
    ensures Render(n, radix) != [] && AllDigits(Render(n, radix), radix)
    ensures Value(Render(n, radix), radix) == n
    decreases n
  {
    if n < radix {
      RenderFirstDigit(n, radix);
    } else {
      DivShrinks(n, radix);
      RenderValue(n / radix, radix);
      RenderLastDigit(n, radix);
    }
  }

  lemma RenderFirstDigit(n: nat, radix: nat)
    requires 2 <= radix <= 36 && n < radix
    ensures Render(n, radix) != [] && AllDigits(Render(n, radix), radix)
    ensures Value(Render(n, radix), radix) == n
  {
    DigitCharValue(n, radix);
    ValueSingle(DigitChar(n), radix);
  }

  lemma RenderLastDigit(n: nat, radix: nat)
    requires 2 <= radix <= 36 && radix <= n
    requires Render(n / radix, radix) != [] && AllDigits(Render(n / radix, radix), radix)
    requires Value(Render(n / radix, radix), radix) == n / radix
    ensures Render(n, radix) != [] && AllDigits(Render(n, radix), radix)
    ensures Value(Render(n, radix), radix) == n
  {
    var q, c := Render(n / radix, radix), DigitChar(n % radix);
    assert Render(n, radix) == q + [c];
    DigitCharValue(n % radix, radix);
    forall k | 0 <= k < |q + [c]|
      ensures DigitOf((q + [c])[k], radix).Some?
    {
      if k < |q| {
        assert (q + [c])[k] == q[k];
      }
    }
    ValueSnoc(q, c, radix);
    DivMod(n, radix);
  }

  /** One more digit at the end multiplies the value by the radix and adds
      the digit. */
  lemma ValueSnoc(q: string, c: char, radix: nat)
    requires 2 <= radix <= 36 && AllDigits(q + [c], radix)
    ensures AllDigits(q, radix) && DigitOf(c, radix).Some?
    ensures Value(q + [c], radix) == Value(q, radix) * radix + DigitOf(c, radix).value
  {
    assert (q + [c])[..|q|] == q;
    assert (q + [c])[|q|] == c;
  }

  /** A single digit denotes itself. */
  lemma ValueSingle(c: char, radix: nat)
    requires 2 <= radix <= 36 && DigitOf(c, radix).Some?
    ensures AllDigits([c], radix) && Value([c], radix) == DigitOf(c, radix).value
  {
    assert [c][..0] == [];
  }

  lemma DivMod(n: nat, radix: nat)
    requires 2 <= radix
    ensures n == (n / radix) * radix + n % radix
  {
  }

  lemma DivShrinks(n: nat, radix: nat)
    requires 2 <= radix <= n
    ensures n / radix < n
  {
    var m := n / radix;
    assert n == m * radix + n % radix;
    MulGrows(m, radix);
    assert m * radix == m + m * (radix - 1);
  }

  /** Radix round trip: parsing the rendering of any `u128` in any radix
      gives the number back. */
  lemma ParseRender(n: U128, radix: nat)
    requires 2 <= radix <= 36
    ensures ParseDigits(Render(n, radix), radix) == Ok(n)
  {
    RenderValue(n, radix);
    ParseDigitsCorrect(Render(n, radix), radix);
  }
}

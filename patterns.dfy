/** The rules the `logos` derive reads off the attributes on `Token`: two
    skip rules, one rule per fixed spelling, four integer forms, a float form
    and an identifier form, each with its priority and the length of its
    longest match at a cursor. */
module Patterns {
  import opened Wrappers
  import opened Tokens

  // ---------------------------------------------------------------------
  // Character classes of the regexes

  datatype CharClass = Space | DecimalBody | HexBody | BinaryBody | OctalBody | Digit | IdentStart | IdentContinue

  predicate InClass(c: char, cls: CharClass) {
    match cls
    case Space => c == ' ' || c == '\t' || c == '\r' || c == '\n'
    case DecimalBody => '0' <= c <= '9' || c == '_'
    case HexBody => '0' <= c <= '9' || 'a' <= c <= 'f' || 'A' <= c <= 'F' || c == '_'
    case BinaryBody => c == '0' || c == '1' || c == '_'
    case OctalBody => '0' <= c <= '7' || c == '_'
    case Digit => '0' <= c <= '9'
    case IdentStart => 'a' <= c <= 'z' || 'A' <= c <= 'Z' || c == '_'
    case IdentContinue => '0' <= c <= '9' || 'a' <= c <= 'z' || 'A' <= c <= 'Z' || c == '_'
  }

  predicate AllIn(w: string, cls: CharClass) {
    forall k :: 0 <= k < |w| ==> InClass(w[k], cls)
  }

  /** The longest run of `cls` characters starting at `i`. */
  function RunLength(src: string, i: nat, cls: CharClass): (n: nat)
    requires i <= |src|
    ensures i + n <= |src|
    ensures i + n < |src| ==> !InClass(src[i + n], cls)
    decreases |src| - i
  {
    if i < |src| && InClass(src[i], cls) then 1 + RunLength(src, i + 1, cls) else 0
  }

  /** `RunLength` measures a run of `cls` characters, and no run at `i` is
      longer. */
  lemma {:induction false} RunLengthLongest(src: string, i: nat, cls: CharClass)
    requires i <= |src|
    ensures AllIn(src[i..i + RunLength(src, i, cls)], cls)
    ensures forall e :: i + RunLength(src, i, cls) < e <= |src| ==> !AllIn(src[i..e], cls)
    decreases |src| - i
  {
    var n := RunLength(src, i, cls);
    if n > 0 {
      RunLengthLongest(src, i + 1, cls);
      assert src[i..i + n] == [src[i]] + src[i + 1..i + n];
    }
    forall e | i + n < e <= |src|
      ensures !AllIn(src[i..e], cls)
    {
      assert src[i..e][n] == src[i + n];
    }
  }

  /** A run is exactly as long as the stretch of class characters that the
      first character outside the class ends. */
  lemma {:induction false} RunLengthStopsAt(src: string, i: nat, cls: CharClass, k: nat)
    requires i + k <= |src| && AllIn(src[i..i + k], cls)
    requires i + k < |src| ==> !InClass(src[i + k], cls)
    ensures RunLength(src, i, cls) == k
    decreases k
  {
    if k > 0 {
      assert src[i..i + k][0] == src[i];
      assert src[i + 1..i + k] == src[i..i + k][1..];
      RunLengthStopsAt(src, i + 1, cls, k - 1);
    }
  }

  /** A run is at least as long as any stretch of class characters at its
      start. */
  lemma {:induction false} RunLengthAtLeast(src: string, i: nat, cls: CharClass, k: nat)
    requires i + k <= |src| && forall j :: i <= j < i + k ==> InClass(src[j], cls)
    ensures k <= RunLength(src, i, cls)
    decreases k
  {
    if k > 0 {
      RunLengthAtLeast(src, i + 1, cls, k - 1);
    }
  }

  /** A run of a class is no longer than a run of a wider class. */
  lemma {:induction false} RunLengthSubclass(src: string, i: nat, narrow: CharClass, wide: CharClass)
    requires i <= |src|
    requires forall c :: InClass(c, narrow) ==> InClass(c, wide)
    ensures RunLength(src, i, narrow) <= RunLength(src, i, wide)
    decreases |src| - i
  {
    if i < |src| && InClass(src[i], narrow) {
      RunLengthSubclass(src, i + 1, narrow, wide);
    }
  }

  // ---------------------------------------------------------------------
  // The rules

  datatype Rule =
    | SkipComment      // `//`, one character other than a newline, a newline
    | SkipWhitespace   // a run of space, tab, carriage return, newline
    | Fixed(t: Token)  // the literal spelling of a payload-free token
    | DecimalInt       // [0-9_]+
    | HexInt           // 0x[0-9a-fA-F_]+
    | BinaryInt        // 0b[01_]+
    | OctalInt         // 0o[0-7_]+
    | FloatLit         // [0-9]*\.[0-9]+
    | IdentName        // [a-zA-Z_][0-9a-zA-Z_]*

  /** The priorities `logos` gives the rules: two per literal character,
      one per character class, nothing for a starred part, and the explicit
      `priority = 3` of identifiers. A literal token's priority is even,
      and the comment rule ranks above every other rule. */
  function Priority(rule: Rule): (r: nat)
    ensures rule.Fixed? ==> r % 2 == 0
    ensures rule == SkipComment <==> r == 7
    ensures r <= 7
  {
    match rule
    case SkipComment => 7
    case SkipWhitespace => 1
    case Fixed(t) => if Spelling(t).Some? then 2 * |Spelling(t).value| else 0
    case DecimalInt => 1
    case HexInt => 5
    case BinaryInt => 5
    case OctalInt => 5
    case FloatLit => 3
    case IdentName => 3
  }

  predicate PrefixedForm(w: string, marker: char, cls: CharClass) {
    |w| > 2 && w[0] == '0' && w[1] == marker && AllIn(w[2..], cls)
  }

  /** The language of each rule's pattern. No pattern admits the empty
      word, and every word begins with a character that can start its
      rule. */
  predicate InLanguage(rule: Rule, w: string): (b: bool)
    ensures b ==> 0 < |w| && CanStart(rule, w[0])
  {
    match rule
    case SkipComment => |w| == 4 && w[0] == '/' && w[1] == '/' && w[2] != '\n' && w[3] == '\n'
    case SkipWhitespace => |w| > 0 && AllIn(w, Space)
    case Fixed(t) => Spelling(t) == Some(w)
    case DecimalInt => |w| > 0 && AllIn(w, DecimalBody)
    case HexInt => PrefixedForm(w, 'x', HexBody)
    case BinaryInt => PrefixedForm(w, 'b', BinaryBody)
    case OctalInt => PrefixedForm(w, 'o', OctalBody)
    case FloatLit =>
      exists j :: 0 <= j < |w| - 1 && w[j] == '.' && AllIn(w[..j], Digit) && AllIn(w[j + 1..], Digit)
    case IdentName => |w| > 0 && InClass(w[0], IdentStart) && AllIn(w[1..], IdentContinue)
  }

  function PrefixedRun(src: string, i: nat, marker: char, cls: CharClass): (n: nat)
    requires i <= |src|
    ensures i + n <= |src|
    ensures n == 0 || 2 < n
  {
    if i + 2 <= |src| && src[i] == '0' && src[i + 1] == marker then
      var m := RunLength(src, i + 2, cls);
      if m > 0 then 2 + m else 0
    else 0
  }

  /** The integer forms whose text starts with a two-character radix
      prefix. */
  predicate IsPrefixed(rule: Rule) {
    rule.HexInt? || rule.BinaryInt? || rule.OctalInt?
  }

  /** The length of the longest match of a rule at `i`, 0 for none. */
  function MatchLen(rule: Rule, src: string, i: nat): (n: nat)
    requires i <= |src|
    ensures i + n <= |src|
    ensures IsPrefixed(rule) && n > 0 ==> 2 < n
  {
    match rule
    case SkipComment =>
      if i + 4 <= |src| && src[i] == '/' && src[i + 1] == '/' && src[i + 2] != '\n' && src[i + 3] == '\n'
      then 4 else 0
    case SkipWhitespace => RunLength(src, i, Space)
    case Fixed(t) =>
      if Spelling(t).Some? && Spelling(t).value <= src[i..] then |Spelling(t).value| else 0
    case DecimalInt => RunLength(src, i, DecimalBody)
    case HexInt => PrefixedRun(src, i, 'x', HexBody)
    case BinaryInt => PrefixedRun(src, i, 'b', BinaryBody)
    case OctalInt => PrefixedRun(src, i, 'o', OctalBody)
    case FloatLit =>
      var k := RunLength(src, i, Digit);
      if i + k < |src| && src[i + k] == '.' then
        var m := RunLength(src, i + k + 1, Digit);
        if m > 0 then k + 1 + m else 0
      else 0
    case IdentName =>
      if i < |src| && InClass(src[i], IdentStart) then 1 + RunLength(src, i + 1, IdentContinue) else 0
  }

  lemma PrefixedLongest(src: string, i: nat, marker: char, cls: CharClass)
    requires i <= |src|
    ensures var n := PrefixedRun(src, i, marker, cls);
      && (n > 0 ==> PrefixedForm(src[i..i + n], marker, cls))
      && (forall e :: i + n < e <= |src| ==> !PrefixedForm(src[i..e], marker, cls))
  {
    var n := PrefixedRun(src, i, marker, cls);
    if n > 0 {
      RunLengthLongest(src, i + 2, cls);
      assert src[i..i + n][2..] == src[i + 2..i + n];
    }
    forall e | i + n < e <= |src|
      ensures !PrefixedForm(src[i..e], marker, cls)
    {
      var w := src[i..e];
      if i + 2 < e && src[i] == '0' && src[i + 1] == marker {
        RunLengthLongest(src, i + 2, cls);
        assert w[2..] == src[i + 2..e];
      }
    }
  }

  lemma FloatLongest(src: string, i: nat)
    requires i <= |src|
    ensures var n := MatchLen(FloatLit, src, i);
      && (n > 0 ==> InLanguage(FloatLit, src[i..i + n]))
      && (forall e :: i + n < e <= |src| ==> !InLanguage(FloatLit, src[i..e]))
  {
    if MatchLen(FloatLit, src, i) > 0 {
      FloatIsWord(src, i);
    }
    forall e | i + MatchLen(FloatLit, src, i) < e <= |src|
      ensures !InLanguage(FloatLit, src[i..e])
    {
      FloatNoLonger(src, i, e);
    }
  }

  /** The float match is digits, a point and digits. */
  lemma FloatIsWord(src: string, i: nat)
    requires i <= |src| && MatchLen(FloatLit, src, i) > 0
    ensures InLanguage(FloatLit, src[i..i + MatchLen(FloatLit, src, i)])
  {
    var n := MatchLen(FloatLit, src, i);
    var d := RunLength(src, i, Digit);
    RunLengthLongest(src, i, Digit);
    RunLengthLongest(src, i + d + 1, Digit);
    assert n == d + 1 + RunLength(src, i + d + 1, Digit);
    var w := src[i..i + n];
    assert w[..d] == src[i..i + d];
    assert w[d + 1..] == src[i + d + 1..i + n];
    assert w[d] == '.';
  }

  /** No text longer than the float match is a float. */
  lemma FloatNoLonger(src: string, i: nat, e: nat)
    requires i <= |src| && i + MatchLen(FloatLit, src, i) < e <= |src|
    ensures !InLanguage(FloatLit, src[i..e])
  {
    forall j | 0 <= j < e - i - 1 && src[i..e][j] == '.' && AllIn(src[i..e][..j], Digit)
      ensures !AllIn(src[i..e][j + 1..], Digit)
    {
      FloatPointIsFirst(src, i, e, j);
    }
  }

  /** In a float-shaped text at `i`, the point follows the leading digit
      run, and the digits after it stop where the run after the point
      stops. */
  lemma FloatPointIsFirst(src: string, i: nat, e: nat, j: nat)
    requires i + j + 1 < e <= |src|
    requires src[i..e][j] == '.' && AllIn(src[i..e][..j], Digit)
    requires i + MatchLen(FloatLit, src, i) < e
    ensures !AllIn(src[i..e][j + 1..], Digit)
  {
    var w := src[i..e];
    var d := RunLength(src, i, Digit);
    RunLengthLongest(src, i, Digit);
    assert w[..j] == src[i..i + j];
    assert w[j] == src[i + j];
    var run := src[i..i + d];
    assert forall q :: 0 <= q < d ==> run[q] == src[i + q];
    assert j <= d;
    assert j == d;
    RunLengthLongest(src, i + d + 1, Digit);
    assert w[j + 1..] == src[i + d + 1..e];
  }

  lemma IdentLongest(src: string, i: nat)
    requires i <= |src|
    ensures var n := MatchLen(IdentName, src, i);
      && (n > 0 ==> InLanguage(IdentName, src[i..i + n]))
      && (forall e :: i + n < e <= |src| ==> !InLanguage(IdentName, src[i..e]))
  {
    var n := MatchLen(IdentName, src, i);
    if n > 0 {
      RunLengthLongest(src, i + 1, IdentContinue);
      assert src[i..i + n][1..] == src[i + 1..i + n];
    }
    forall e | i + n < e <= |src|
      ensures !InLanguage(IdentName, src[i..e])
    {
      var w := src[i..e];
      if InClass(src[i], IdentStart) {
        RunLengthLongest(src, i + 1, IdentContinue);
        assert w[1..] == src[i + 1..e];
      } else {
        assert w[0] == src[i];
      }
    }
  }

  /** A rule's match is a word of its language. */
  lemma MatchIsWord(rule: Rule, src: string, i: nat)
    requires i <= |src| && MatchLen(rule, src, i) > 0
    ensures InLanguage(rule, src[i..i + MatchLen(rule, src, i)])
  {
    match rule
    case SkipComment =>
      CommentLongest(src, i);
    case SkipWhitespace =>
      RunLengthLongest(src, i, Space);
    case Fixed(t) =>
      FixedLongest(t, src, i);
    case DecimalInt =>
      RunLengthLongest(src, i, DecimalBody);
    case HexInt =>
      PrefixedLongest(src, i, 'x', HexBody);
    case BinaryInt =>
      PrefixedLongest(src, i, 'b', BinaryBody);
    case OctalInt =>
      PrefixedLongest(src, i, 'o', OctalBody);
    case FloatLit =>
      FloatLongest(src, i);
    case IdentName =>
      IdentLongest(src, i);
  }

  /** No prefix of the remaining input longer than a rule's match is a word
      of its language: the per-rule half of maximal munch. */
  lemma MatchIsLongest(rule: Rule, src: string, i: nat)
    requires i <= |src|
    ensures forall e :: i + MatchLen(rule, src, i) < e <= |src| ==> !InLanguage(rule, src[i..e])
  {
    match rule
    case SkipComment =>
      CommentLongest(src, i);
    case SkipWhitespace =>
      RunLengthLongest(src, i, Space);
    case Fixed(t) =>
      FixedLongest(t, src, i);
    case DecimalInt =>
      RunLengthLongest(src, i, DecimalBody);
    case HexInt =>
      PrefixedLongest(src, i, 'x', HexBody);
    case BinaryInt =>
      PrefixedLongest(src, i, 'b', BinaryBody);
    case OctalInt =>
      PrefixedLongest(src, i, 'o', OctalBody);
    case FloatLit =>
      FloatLongest(src, i);
    case IdentName =>
      IdentLongest(src, i);
  }

  lemma CommentLongest(src: string, i: nat)
    requires i <= |src|
    ensures var n := MatchLen(SkipComment, src, i);
      && (n > 0 ==> InLanguage(SkipComment, src[i..i + n]))
      && (forall e :: i + n < e <= |src| ==> !InLanguage(SkipComment, src[i..e]))
  {
    var n := MatchLen(SkipComment, src, i);
    forall e | i + n < e <= |src| && e == i + 4
      ensures !InLanguage(SkipComment, src[i..e])
    {
      var w := src[i..e];
      assert w[0] == src[i] && w[1] == src[i + 1] && w[2] == src[i + 2] && w[3] == src[i + 3];
    }
  }

  lemma FixedLongest(t: Token, src: string, i: nat)
    requires i <= |src|
    ensures var n := MatchLen(Fixed(t), src, i);
      && (n > 0 ==> Spelling(t) == Some(src[i..i + n]))
      && (forall e :: i + n < e <= |src| ==> Spelling(t) != Some(src[i..e]))
  {
    var n := MatchLen(Fixed(t), src, i);
    forall e | i + n < e <= |src|
      ensures Spelling(t) != Some(src[i..e])
    {
      assert src[i..][..e - i] == src[i..e];
    }
    if n > 0 {
      var sp := Spelling(t).value;
      assert sp == src[i..][..n];
      assert src[i..][..n] == src[i..i + n];
    }
  }

  /** The input has character `c` at position `k`. */
  predicate Follows(src: string, k: nat, c: char) {
    k < |src| && src[k] == c
  }

  /** The literal `logos` reads at `i` among the fixed spellings, one
      character at a time: the longest spelling the input continues
      with. */
  function LongestFixed(src: string, i: nat): (r: Option<Token>)
    requires i <= |src|
  {
    if i == |src| then None
    else match src[i]
      case 'l' => if Follows(src, i + 1, 'e') && Follows(src, i + 2, 't') then Some(Let) else None
      case '&' => if Follows(src, i + 1, '&') then Some(AndAnd) else Some(And)
      case '|' => if Follows(src, i + 1, '|') then Some(OrOr) else Some(Or)
      case '=' => if Follows(src, i + 1, '=') then Some(Eq) else Some(Assign)
      case '!' => if Follows(src, i + 1, '=') then Some(Ne) else Some(Not)
      case '<' => if Follows(src, i + 1, '=') then Some(Le) else Some(Lt)
      case '>' => if Follows(src, i + 1, '=') then Some(Ge) else Some(Gt)
      case '+' => Some(Plus)
      case '-' => Some(Minus)
      case '*' => Some(Asterisk)
      case '/' => Some(Divide)
      case '^' => Some(Xor)
      case ';' => Some(Semicolon)
      case '(' => Some(LeftParen)
      case ')' => Some(RightParen)
      case '[' => Some(LeftSquare)
      case ']' => Some(RightSquare)
      case '{' => Some(LeftBrace)
      case '}' => Some(RightBrace)
      case _ => None
  }

  /** The spelling `LongestFixed` reads is there in the input. */
  lemma LongestFixedMatches(src: string, i: nat)
    requires i <= |src|
    ensures var r := LongestFixed(src, i);
      r.Some? ==> Spelling(r.value).Some? && MatchLen(Fixed(r.value), src, i) == |Spelling(r.value).value| > 0
  {
    var r := LongestFixed(src, i);
    if r.Some? {
      var sp := Spelling(r.value).value;
      assert forall k :: 0 <= k < |sp| ==> i + k < |src| && src[i + k] == sp[k];
      assert src[i..][..|sp|] == sp;
    }
  }

  /** The longest fixed spelling matches, and it outranks every fixed rule
      that matches too: any other is shorter. */
  lemma LongestFixedCorrect(src: string, i: nat)
    requires i <= |src|
    ensures var r := LongestFixed(src, i);
      && (r.Some? ==> MatchLen(Fixed(r.value), src, i) > 0)
      && (forall t :: MatchLen(Fixed(t), src, i) > 0 ==>
            r.Some? && (MatchLen(Fixed(t), src, i) < MatchLen(Fixed(r.value), src, i) || t == r.value))
  {
    LongestFixedMatches(src, i);
    forall t | MatchLen(Fixed(t), src, i) > 0
      ensures var r := LongestFixed(src, i);
        r.Some? && (MatchLen(Fixed(t), src, i) < MatchLen(Fixed(r.value), src, i) || t == r.value)
    {
      LongestFixedCovers(src, i, t);
    }
  }

  /** A fixed rule that matches is read by `LongestFixed`, or a longer one
      is. */
  lemma LongestFixedCovers(src: string, i: nat, t: Token)
    requires i <= |src| && MatchLen(Fixed(t), src, i) > 0
    ensures var r := LongestFixed(src, i);
      r.Some? && (MatchLen(Fixed(t), src, i) < MatchLen(Fixed(r.value), src, i) || t == r.value)
  {
    var n := MatchLen(Fixed(t), src, i);
    FixedLongest(t, src, i);
    FixedStart(t);
    var sp := Spelling(t).value;
    assert src[i] == sp[0];
    if n >= 2 {
      assert src[i + 1] == sp[1];
    }
    if n >= 3 {
      assert src[i + 2] == sp[2];
    }
    LongestFixedMatches(src, i);
  }

  /** The characters a match of each rule can begin with. */
  predicate CanStart(rule: Rule, c: char) {
    match rule
    case SkipComment => c == '/'
    case SkipWhitespace => InClass(c, Space)
    case Fixed(t) => Spelling(t).Some? && [c] <= Spelling(t).value
    case DecimalInt => InClass(c, DecimalBody)
    case HexInt => c == '0'
    case BinaryInt => c == '0'
    case OctalInt => c == '0'
    case FloatLit => InClass(c, Digit) || c == '.'
    case IdentName => InClass(c, IdentStart)
  }

  lemma MatchStarts(rule: Rule, src: string, i: nat)
    requires i <= |src|
    ensures MatchLen(rule, src, i) > 0 ==> i < |src| && CanStart(rule, src[i])
  {
    var n := MatchLen(rule, src, i);
    if n > 0 {
      MatchIsWord(rule, src, i);
      var w := src[i..i + n];
      assert w[0] == src[i];
      match rule
      case Fixed(t) =>
        assert w[..1] == [src[i]];
      case FloatLit =>
        var d := RunLength(src, i, Digit);
        if d == 0 {
          assert src[i] == '.';
        } else {
          assert src[i..i + d][0] == src[i];
        }
      case _ =>
    }
  }

  /** The operator and punctuation characters that begin a fixed spelling
      other than `let`. */
  predicate IsOperatorChar(c: char) {
    match c
    case '+' | '-' | '*' | '/' | '^' | '!' | '&' | '|' | '=' | '<' | '>' | ';' | '(' | ')' | '[' | ']' | '{' | '}' => true
    case _ => false
  }

  lemma FixedStart(t: Token)
    requires Spelling(t).Some?
    ensures 0 < |Spelling(t).value| <= 3
    ensures t == Let <==> Spelling(t).value[0] == 'l'
    ensures t != Let ==> IsOperatorChar(Spelling(t).value[0]) && |Spelling(t).value| <= 2
    ensures t != Let && |Spelling(t).value| == 2 ==> IsOperatorChar(Spelling(t).value[1])
  {
  }

  /** A fixed rule can start only at the keyword's `l` or at an operator
      character. */
  lemma FixedStartsWith(t: Token, c: char)
    requires CanStart(Fixed(t), c)
    ensures (c == 'l' && t == Let) || (IsOperatorChar(c) && t != Let)
  {
    FixedStart(t);
    assert Spelling(t).value[0] == [c][0];
  }

  /** The rules that can begin at a space, tab, carriage return or
      newline: whitespace alone. */
  lemma StartersAtSpace(c: char, q: Rule)
    requires InClass(c, Space) && CanStart(q, c)
    ensures q == SkipWhitespace
  {
    if q.Fixed? {
      FixedStartsWith(q.t, c);
    }
  }

  /** The rules that can begin at a decimal digit: the number forms. */
  lemma StartersAtDigit(c: char, q: Rule)
    requires InClass(c, Digit) && CanStart(q, c)
    ensures q == DecimalInt || IsPrefixed(q) || q == FloatLit
  {
    if q.Fixed? {
      FixedStartsWith(q.t, c);
    }
  }

  /** The rules that can begin where an identifier can: the identifier,
      the keyword at an `l`, and the decimal form at an underscore. */
  lemma StartersAtWord(c: char, q: Rule)
    requires InClass(c, IdentStart) && CanStart(q, c)
    ensures q == IdentName || (q == Fixed(Let) && c == 'l') || (q == DecimalInt && c == '_')
  {
    if q.Fixed? {
      FixedStartsWith(q.t, c);
    }
  }

  /** The rules that can begin at an operator character: the fixed
      spellings, and the comment at a `/`. */
  lemma StartersAtOperator(c: char, q: Rule)
    requires IsOperatorChar(c) && CanStart(q, c)
    ensures q.Fixed? || (q == SkipComment && c == '/')
  {
  }

  /** Only the float form can begin at a point. */
  lemma StartersAtPoint(q: Rule)
    requires CanStart(q, '.')
    ensures q == FloatLit
  {
    if q.Fixed? {
      FixedStartsWith(q.t, '.');
    }
  }
}

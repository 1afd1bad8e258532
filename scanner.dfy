/** The generated lexer: the contest between the rules at the cursor, the
    callbacks that turn the winning lexeme into a token, and the cursor that
    `Token::lexer(src)` hands out and `next()` advances. */
module Scanner {
  import opened Wrappers
  import opened Tokens
  import opened Literals
  import opened Patterns

  /** Rule `a` beats or ties rule `b` at `i`: its match is longer, or as
      long with at least the priority. */
  predicate Outranks(a: Rule, b: Rule, src: string, i: nat)
    requires i <= |src|
  {
    MatchLen(b, src, i) < MatchLen(a, src, i) ||
    (MatchLen(b, src, i) == MatchLen(a, src, i) && Priority(b) <= Priority(a))
  }

  /** `rule` wins the contest at `i`: it matches, and it outranks every
      rule. */
  ghost predicate Wins(rule: Rule, src: string, i: nat)
    requires i <= |src|
  {
    MatchLen(rule, src, i) > 0 && forall q :: Outranks(rule, q, src, i)
  }

  /** The contest over `rules`: the longest match wins, the higher
      priority breaks a tie, and an earlier rule keeps a full tie; `None`
      when none of them matches. */
  function BestOf(rules: seq<Rule>, src: string, i: nat): (r: Option<Rule>)
    requires i <= |src|
    ensures r.Some? ==> MatchLen(r.value, src, i) > 0
  {
    if rules == [] then None
    else
      var rest := BestOf(rules[1..], src, i);
      if MatchLen(rules[0], src, i) == 0 then rest
      else if rest.None? || Outranks(rules[0], rest.value, src, i) then Some(rules[0])
      else rest
  }

  /** The contest's result outranks every rule in it, and there is none
      exactly when no rule matches. */
  lemma {:induction false} BestOfCorrect(rules: seq<Rule>, src: string, i: nat)
    requires i <= |src|
    ensures var r := BestOf(rules, src, i);
      && (r.None? <==> forall j :: 0 <= j < |rules| ==> MatchLen(rules[j], src, i) == 0)
      && (r.Some? ==> forall j :: 0 <= j < |rules| ==> Outranks(r.value, rules[j], src, i))
    decreases |rules|
  {
    if rules != [] {
      BestOfCorrect(rules[1..], src, i);
      assert forall j :: 1 <= j < |rules| ==> rules[j] == rules[1..][j - 1];
    }
  }

  /** The rules in the running at `i`: the longest fixed spelling, which
      outranks every other fixed rule there, and the rules read off a
      regex. */
  function Candidates(src: string, i: nat): seq<Rule>
    requires i <= |src|
  {
    var fixed := LongestFixed(src, i);
    (if fixed.Some? then [Fixed(fixed.value)] else [])
    + [SkipComment, SkipWhitespace, DecimalInt, HexInt, BinaryInt, OctalInt, FloatLit, IdentName]
  }

  /** Every rule that matches at `i` is outranked by a candidate that
      matches. */
  lemma CandidatesCover(src: string, i: nat, q: Rule)
    requires i <= |src| && MatchLen(q, src, i) > 0
    ensures var cs := Candidates(src, i);
      exists j :: 0 <= j < |cs| && MatchLen(cs[j], src, i) > 0 && Outranks(cs[j], q, src, i)
  {
    var cs := Candidates(src, i);
    var k := |cs| - 8;
    match q
    case Fixed(t) =>
      LongestFixedCorrect(src, i);
      assert cs[0] == Fixed(LongestFixed(src, i).value);
      assert Outranks(cs[0], q, src, i);
    case SkipComment => assert cs[k] == q;
    case SkipWhitespace => assert cs[k + 1] == q;
    case DecimalInt => assert cs[k + 2] == q;
    case HexInt => assert cs[k + 3] == q;
    case BinaryInt => assert cs[k + 4] == q;
    case OctalInt => assert cs[k + 5] == q;
    case FloatLit => assert cs[k + 6] == q;
    case IdentName => assert cs[k + 7] == q;
  }

  /** The winning rule at `i`, if any rule matches. */
  function Winner(src: string, i: nat): (r: Option<Rule>)
    requires i <= |src|
    ensures r.Some? ==> MatchLen(r.value, src, i) > 0
  {
    BestOf(Candidates(src, i), src, i)
  }

  /** No rule matches longer than the winner, and a rule that matches as
      long has at most its priority; there is no winner exactly when no
      rule matches. */
  lemma WinnerCorrect(src: string, i: nat)
    requires i <= |src|
    ensures Winner(src, i).None? <==> forall q :: MatchLen(q, src, i) == 0
    ensures Winner(src, i).Some? ==> Wins(Winner(src, i).value, src, i)
  {
    var cs := Candidates(src, i);
    var r := Winner(src, i);
    BestOfCorrect(cs, src, i);
    if r.None? {
      forall q
        ensures MatchLen(q, src, i) == 0
      {
        if MatchLen(q, src, i) > 0 {
          CandidatesCover(src, i, q);
        }
      }
    } else {
      forall q
        ensures Outranks(r.value, q, src, i)
      {
        if MatchLen(q, src, i) > 0 {
          CandidatesCover(src, i, q);
          var j :| 0 <= j < |cs| && MatchLen(cs[j], src, i) > 0 && Outranks(cs[j], q, src, i);
          assert Outranks(r.value, cs[j], src, i);
        }
      }
    }
  }

  /** The lexer's errors: no rule matches (`Err(())` from `logos`), or an
      integer callback's `unwrap()` would panic. */
  datatype LexError = UnexpectedCharacter | BadInteger(kind: IntError)

  /** One round of the contest: nothing matches, a skip rule won, or a
      token rule won; `len` is the length of the winning match. */
  datatype Step = NoMatch | Skip(len: nat) | Emit(item: Result<Token, LexError>, len: nat)

  function IntegerItem(p: Result<U128, IntError>): Result<Token, LexError> {
    match p
    case Ok(v) => Ok(Integer(v))
    case Err(e) => Err(BadInteger(e))
  }

  /** What the winning rule makes of its lexeme `w`: the callbacks of the
      integer forms parse the digits after the prefix, the float keeps its
      text, every other token rule yields its variant. */
  function Produce(rule: Rule, w: string): (s: Step)
    requires IsPrefixed(rule) ==> 2 <= |w|
    ensures !s.NoMatch? && s.len == |w|
    ensures s.Skip? <==> rule == SkipComment || rule == SkipWhitespace
    ensures s.Emit? ==> s.item != Err(UnexpectedCharacter)
  {
    match rule
    case SkipComment => Skip(|w|)
    case SkipWhitespace => Skip(|w|)
    case Fixed(t) => Emit(Ok(t), |w|)
    case DecimalInt => Emit(IntegerItem(ParseDigits(w, 10)), |w|)
    case HexInt => Emit(IntegerItem(ParseDigits(w[2..], 16)), |w|)
    case BinaryInt => Emit(IntegerItem(ParseDigits(w[2..], 2)), |w|)
    case OctalInt => Emit(IntegerItem(ParseDigits(w[2..], 8)), |w|)
    case FloatLit => Emit(Ok(Float(w)), |w|)
    case IdentName => Emit(Ok(Ident), |w|)
  }

  /** What a rule produces from a word of its language stands for that
      word; an identifier-shaped word is the keyword's, not an
      identifier's, when it spells `let`. */
  lemma ProduceMeaning(rule: Rule, w: string, s: Step)
    requires InLanguage(rule, w) && (rule == IdentName ==> w != "let")
    requires s == Produce(rule, w)
    ensures s.Skip? ==> InLanguage(SkipComment, w) || InLanguage(SkipWhitespace, w)
    ensures s.Emit? ==> Denotes(w, s.item)
  {
  }

  /** `w` is the text of an integer literal in one of the four forms, and
      parsing its digits gives `p`. */
  predicate IntegerText(w: string, p: Result<U128, IntError>) {
    || (InLanguage(DecimalInt, w) && ParseDigits(w, 10) == p)
    || (InLanguage(HexInt, w) && ParseDigits(w[2..], 16) == p)
    || (InLanguage(BinaryInt, w) && ParseDigits(w[2..], 2) == p)
    || (InLanguage(OctalInt, w) && ParseDigits(w[2..], 8) == p)
  }

  /** The relation between a lexeme's text and what the lexer reports for
      it, read off the attributes alone. */
  predicate Denotes(w: string, item: Result<Token, LexError>) {
    match item
    case Ok(Integer(v)) => IntegerText(w, Ok(v))
    case Ok(Float(x)) => InLanguage(FloatLit, w) && x == w
    case Ok(Ident) => InLanguage(IdentName, w) && w != "let"
    case Ok(t) => Spelling(t) == Some(w)
    case Err(UnexpectedCharacter) => |w| == 1
    case Err(BadInteger(e)) => IntegerText(w, Err(e))
  }

  /** One round of the contest at `i`: what the winning rule makes of its
      match, or `NoMatch`. A round that matches consumes at least one
      character and stays inside the source. */
  function StepAt(src: string, i: nat): (s: Step)
    requires i < |src|
    ensures !s.NoMatch? ==> 0 < s.len <= |src| - i
    ensures s.Emit? ==> s.item != Err(UnexpectedCharacter)
  {
    match Winner(src, i)
    case None => NoMatch
    case Some(rule) => Produce(rule, src[i..i + MatchLen(rule, src, i)])
  }

  /** Maximal munch: a round reports a match exactly when some rule
      matches, and the match is at least as long as every rule's. */
  lemma StepLongest(src: string, i: nat)
    requires i < |src|
    ensures StepAt(src, i).NoMatch? <==> forall q :: MatchLen(q, src, i) == 0
    ensures !StepAt(src, i).NoMatch? ==> forall q :: MatchLen(q, src, i) <= StepAt(src, i).len
  {
    WinnerCorrect(src, i);
    if Winner(src, i).Some? {
      WinnerLength(Winner(src, i).value, src, i);
    }
  }

  /** Two rules that both win at `i` are the same rule: rules of equal
      priority never match the same text, so the contest is decided
      whatever order the rules are tried in. */
  lemma WinnerUnique(a: Rule, b: Rule, src: string, i: nat)
    requires i <= |src| && Wins(a, src, i) && Wins(b, src, i)
    ensures a == b
  {
    assert Outranks(a, b, src, i) && Outranks(b, a, src, i);
    if a.Fixed? && b.Fixed? {
      FixedSameMatch(a.t, b.t, src, i);
    } else {
      SameRankSameRule(a, b, src, i);
    }
  }

  /** Two rules, not both fixed, that match the same length at `i` with
      the same priority are the same rule: the rules sharing a priority
      begin with different characters. */
  lemma SameRankSameRule(a: Rule, b: Rule, src: string, i: nat)
    requires i <= |src| && 0 < MatchLen(a, src, i) == MatchLen(b, src, i)
    requires Priority(a) == Priority(b) && !(a.Fixed? && b.Fixed?)
    ensures a == b
  {
    MatchStarts(a, src, i);
    MatchStarts(b, src, i);
  }

  /** Two fixed rules with matches of one length at `i` spell the same
      text, so they are the same token. */
  lemma FixedSameMatch(s: Token, t: Token, src: string, i: nat)
    requires i <= |src| && 0 < MatchLen(Fixed(s), src, i) == MatchLen(Fixed(t), src, i)
    ensures s == t
  {
    FixedLongest(s, src, i);
    FixedLongest(t, src, i);
    SpellingInjective(s, t);
  }

  /** The round at `i` is what the winning rule produces from its match. */
  lemma StepOfWinner(rule: Rule, src: string, i: nat)
    requires i < |src| && Wins(rule, src, i)
    ensures StepAt(src, i) == Produce(rule, src[i..i + MatchLen(rule, src, i)])
  {
    WinnerCorrect(src, i);
    WinnerUnique(Winner(src, i).value, rule, src, i);
  }

  /** No rule matches longer than a winner. */
  lemma WinnerLength(rule: Rule, src: string, i: nat)
    requires i <= |src| && Wins(rule, src, i)
    ensures forall q :: MatchLen(q, src, i) <= MatchLen(rule, src, i)
  {
    forall q
      ensures MatchLen(q, src, i) <= MatchLen(rule, src, i)
    {
      assert Outranks(rule, q, src, i);
    }
  }

  /** An identifier-shaped lexeme that spells `let` never wins: the
      keyword matches as long and has the higher priority. */
  lemma KeywordBeatsIdent(src: string, i: nat)
    requires i <= |src| && Wins(IdentName, src, i)
    ensures src[i..i + MatchLen(IdentName, src, i)] != "let"
  {
    var n := MatchLen(IdentName, src, i);
    assert Outranks(IdentName, Fixed(Let), src, i);
    if n == 3 {
      assert src[i..][..3] == src[i..i + 3];
    }
  }

  /** The text of each round's match is what the round reports: a comment
      or whitespace for a skip, and for a token or an integer error the
      lexeme its item stands for. */
  lemma StepMeaning(src: string, i: nat)
    requires i < |src|
    ensures var s := StepAt(src, i);
      && (s.Skip? ==> InLanguage(SkipComment, src[i..i + s.len]) || InLanguage(SkipWhitespace, src[i..i + s.len]))
      && (s.Emit? ==> Denotes(src[i..i + s.len], s.item))
  {
    var s := StepAt(src, i);
    var r := Winner(src, i);
    if r.Some? {
      var rule := r.value;
      var n := MatchLen(rule, src, i);
      MatchIsWord(rule, src, i);
      if rule == IdentName {
        IdentWinnerIsNotLet(src, i);
      }
      assert s.len == n;
      ProduceMeaning(rule, src[i..i + s.len], s);
    }
  }

  /** When the identifier rule wins, its lexeme is not `let`. */
  lemma IdentWinnerIsNotLet(src: string, i: nat)
    requires i <= |src| && Winner(src, i) == Some(IdentName)
    ensures src[i..i + MatchLen(IdentName, src, i)] != "let"
  {
    WinnerCorrect(src, i);
    KeywordBeatsIdent(src, i);
  }

  /** A half-open byte range `[start, end)` of the source. */
  datatype Span = Span(start: nat, end: nat)

  /** One item of the lexer's output, with the span `lex.span()` reports. */
  datatype Lexeme = Lexeme(item: Result<Token, LexError>, span: Span)

  /** `l` lies in `src` at or after `from`, is not empty, and its text is
      what its item stands for. */
  predicate WellPlaced(src: string, l: Lexeme, from: nat) {
    && from <= l.span.start < l.span.end <= |src|
    && Denotes(src[l.span.start..l.span.end], l.item)
  }

  /** What the round at `pos` reports: the token or integer error of a
      winning token rule with the winner's length, an unexpected character
      of length one when no rule matches, nothing when a skip rule wins. */
  function Report(src: string, pos: nat): (r: Option<Lexeme>)
    requires pos < |src|
    ensures r.None? <==> StepAt(src, pos).Skip?
    ensures r.Some? ==> r.value.span.start == pos < r.value.span.end <= |src|
  {
    match StepAt(src, pos)
    case NoMatch => Some(Lexeme(Err(UnexpectedCharacter), Span(pos, pos + 1)))
    case Skip(_) => None
    case Emit(item, n) => Some(Lexeme(item, Span(pos, pos + n)))
  }

  /** `l` is what the round at its start reports. */
  predicate Reported(src: string, l: Lexeme) {
    l.span.start < |src| && Report(src, l.span.start) == Some(l)
  }

  /** A reported lexeme lies in the source, and its text is what its item
      stands for; it is an unexpected character only where no rule
      matches. */
  lemma ReportedIsWellPlaced(src: string, l: Lexeme)
    requires Reported(src, l)
    ensures WellPlaced(src, l, l.span.start)
    ensures l.item == Err(UnexpectedCharacter) ==> forall q :: MatchLen(q, src, l.span.start) == 0
  {
    var p := l.span.start;
    match StepAt(src, p)
    case NoMatch =>
      StepLongest(src, p);
      assert |src[p..l.span.end]| == 1;
    case Emit(item, n) =>
      StepMeaning(src, p);
    case Skip(_) =>
      assert false;
  }

  /** `next()` from cursor `pos`: skip-rule wins are passed over, then the
      next token or error is reported with its span; `None` at the end. An
      unmatched character is reported alone, and the cursor moves past it. */
  function Pull(src: string, pos: nat): (r: Option<Lexeme>)
    requires pos <= |src|
    ensures r.Some? ==> pos <= r.value.span.start < r.value.span.end <= |src|
    decreases |src| - pos
  {
    if pos == |src| then None
    else if StepAt(src, pos).Skip? then Pull(src, pos + StepAt(src, pos).len)
    else Report(src, pos)
  }

  /** What `next()` reports is what the round at its start reports. */
  lemma {:induction false} PullReported(src: string, pos: nat)
    requires pos <= |src| && Pull(src, pos).Some?
    ensures Pull(src, pos).value.span.start < |src|
    ensures Report(src, Pull(src, pos).value.span.start) == Pull(src, pos)
    decreases |src| - pos
  {
    if StepAt(src, pos).Skip? {
      PullReported(src, pos + StepAt(src, pos).len);
    }
  }

  /** Everything `next()` yields from cursor `pos` until it returns `None`:
      lexemes in order, each inside the source, spans increasing and
      disjoint. */
  function TokenizeFrom(src: string, pos: nat): (r: seq<Lexeme>)
    requires pos <= |src|
    ensures forall k :: 0 <= k < |r| ==> pos <= r[k].span.start < r[k].span.end <= |src|
    ensures |r| <= |src| - pos
    decreases |src| - pos
  {
    match Pull(src, pos)
    case None => []
    case Some(l) => [l] + TokenizeFrom(src, l.span.end)
  }

  /** The spans of the output from `pos` are increasing and disjoint. */
  lemma {:induction false} TokenizeFromOrdered(src: string, pos: nat)
    requires pos <= |src|
    ensures forall j, k :: 0 <= j < k < |TokenizeFrom(src, pos)| ==>
      TokenizeFrom(src, pos)[j].span.end <= TokenizeFrom(src, pos)[k].span.start
    decreases |src| - pos
  {
    var r := TokenizeFrom(src, pos);
    if Pull(src, pos).Some? {
      var l := Pull(src, pos).value;
      var rest := TokenizeFrom(src, l.span.end);
      TokenizeFromOrdered(src, l.span.end);
      assert r == [l] + rest;
      forall j, k | 0 <= j < k < |r|
        ensures r[j].span.end <= r[k].span.start
      {
        assert r[k] == rest[k - 1];
        if j > 0 {
          assert r[j] == rest[j - 1];
        }
      }
    }
  }

  /** Every lexeme of the output is reported by the contest at its start,
      so its text is what its item stands for. */
  lemma {:induction false} TokenizeFromWellPlaced(src: string, pos: nat)
    requires pos <= |src|
    ensures forall k :: 0 <= k < |TokenizeFrom(src, pos)| ==> Reported(src, TokenizeFrom(src, pos)[k])
    ensures forall k :: 0 <= k < |TokenizeFrom(src, pos)| ==> WellPlaced(src, TokenizeFrom(src, pos)[k], pos)
    decreases |src| - pos
  {
    var r := TokenizeFrom(src, pos);
    if Pull(src, pos).Some? {
      var l := Pull(src, pos).value;
      var rest := TokenizeFrom(src, l.span.end);
      PullReported(src, pos);
      TokenizeFromWellPlaced(src, l.span.end);
      ReportedIsWellPlaced(src, l);
      assert r == [l] + rest;
      forall k | 0 <= k < |r|
        ensures Reported(src, r[k]) && WellPlaced(src, r[k], pos)
      {
        if k > 0 {
          assert r[k] == rest[k - 1];
        }
      }
    }
  }

  /** One call of `next()` and the rest of the output. */
  lemma TokenizeFromStep(src: string, pos: nat)
    requires pos <= |src|
    ensures Pull(src, pos).None? ==> TokenizeFrom(src, pos) == []
    ensures Pull(src, pos).Some? ==>
      TokenizeFrom(src, pos) == [Pull(src, pos).value] + TokenizeFrom(src, Pull(src, pos).value.span.end)
  {
  }

  /** A round that emits puts its item first in the output, and the rest
      starts after it. */
  lemma TokenizeFromEmit(src: string, pos: nat, item: Result<Token, LexError>, n: nat)
    requires pos < |src| && StepAt(src, pos) == Emit(item, n)
    ensures pos + n <= |src|
    ensures TokenizeFrom(src, pos) == [Lexeme(item, Span(pos, pos + n))] + TokenizeFrom(src, pos + n)
  {
    PullEmit(src, pos, item, n);
    TokenizeFromPull(src, pos, item, pos + n);
  }

  /** What `next()` reports comes first in the output, and the rest
      starts after it. */
  lemma TokenizeFromPull(src: string, pos: nat, item: Result<Token, LexError>, end: nat)
    requires pos <= |src| && Pull(src, pos) == Some(Lexeme(item, Span(pos, end)))
    ensures end <= |src|
    ensures TokenizeFrom(src, pos) == [Lexeme(item, Span(pos, end))] + TokenizeFrom(src, end)
  {
  }

  /** A round that emits is what `next()` reports. */
  lemma PullEmit(src: string, pos: nat, item: Result<Token, LexError>, n: nat)
    requires pos < |src| && StepAt(src, pos) == Emit(item, n)
    ensures Pull(src, pos) == Some(Lexeme(item, Span(pos, pos + n)))
  {
    assert Report(src, pos) == Some(Lexeme(item, Span(pos, pos + n)));
  }

  /** A skipping round leaves no trace in the output. */
  lemma TokenizeFromSkip(src: string, pos: nat, n: nat)
    requires pos < |src| && StepAt(src, pos) == Skip(n)
    ensures pos + n <= |src|
    ensures TokenizeFrom(src, pos) == TokenizeFrom(src, pos + n)
  {
    PullSkip(src, pos, n);
    TokenizeFromStep(src, pos);
    TokenizeFromStep(src, pos + n);
  }

  /** `next()` passes over a skipping round. */
  lemma PullSkip(src: string, pos: nat, n: nat)
    requires pos < |src| && StepAt(src, pos) == Skip(n)
    ensures pos + n <= |src| && Pull(src, pos) == Pull(src, pos + n)
  {
    assert Pull(src, pos) == Pull(src, pos + StepAt(src, pos).len);
  }

  /** A round where no rule matches yields an unexpected character over
      one character, and scanning goes on after it. */
  lemma TokenizeFromNoMatch(src: string, pos: nat)
    requires pos < |src| && StepAt(src, pos).NoMatch?
    ensures TokenizeFrom(src, pos) ==
      [Lexeme(Err(UnexpectedCharacter), Span(pos, pos + 1))] + TokenizeFrom(src, pos + 1)
  {
    TokenizeFromStep(src, pos);
  }

  /** Nothing is left at the end of the source. */
  lemma TokenizeFromEnd(src: string)
    ensures TokenizeFrom(src, |src|) == []
  {
    TokenizeFromStep(src, |src|);
  }

  /** `Token::lexer(src)` pulled until it returns `None`: at most one
      lexeme per character of the source. */
  function Tokenize(src: string): (r: seq<Lexeme>)
    ensures |r| <= |src|
  {
    TokenizeFrom(src, 0)
  }

  /** A source that is one token from end to end lexes to that token. */
  lemma WholeSource(src: string, item: Result<Token, LexError>)
    requires 0 < |src| && StepAt(src, 0) == Emit(item, |src|)
    ensures Tokenize(src) == [Lexeme(item, Span(0, |src|))]
  {
    TokenizeFromEmit(src, 0, item, |src|);
    TokenizeFromEnd(src);
    Last1(Tokenize(src), TokenizeFrom(src, |src|), Lexeme(item, Span(0, |src|)));
  }

  /** A lexeme followed by nothing is a one-lexeme output. */
  lemma Last1(t0: seq<Lexeme>, t1: seq<Lexeme>, a: Lexeme)
    requires t0 == [a] + t1 && t1 == []
    ensures t0 == [a]
  {
  }

  /** The `logos` lexer over one source buffer: a cursor and the span of
      the last item. */
  class Lexer {
    const source: string
    var pos: nat
    var span: Span

    ghost predicate Valid()
      reads this
    {
      pos <= |source|
    }

    /** `Token::lexer(src)`. */
    constructor (src: string)
      ensures Valid() && source == src && pos == 0 && span == Span(0, 0)
    {
      source := src;
      pos := 0;
      span := Span(0, 0);
    }

    /** `Lexer::next`: passes over skip-rule wins, then reports one item,
        records its span and moves the cursor past it; at the end of the
        source it reports nothing. */
    method Next() returns (r: Option<Result<Token, LexError>>)
      requires Valid()
      modifies this
      ensures Valid()
      ensures Pull(source, old(pos)).None? ==> r.None? && pos == |source| && span == old(span)
      ensures Pull(source, old(pos)).Some? ==>
        var l := Pull(source, old(pos)).value;
        r == Some(l.item) && span == l.span && pos == l.span.end
    {
      var next := Pull(source, pos);
      if next.None? {
        pos := |source|;
        r := None;
      } else {
        span := next.value.span;
        pos := span.end;
        r := Some(next.value.item);
      }
    }
  }

  /** The driver loop `while let Some(t) = lex.next()`: collects every item
      with the span reported beside it. */
  method LexAll(src: string) returns (items: seq<Lexeme>)
    ensures items == Tokenize(src)
  {
    var lex := new Lexer(src);
    items := [];
    var done := false;
    while !done
      invariant lex.Valid() && lex.source == src
      invariant !done ==> items + TokenizeFrom(src, lex.pos) == Tokenize(src)
      invariant done ==> items == Tokenize(src)
      decreases |src| - lex.pos, !done
    {
      TokenizeFromStep(src, lex.pos);
      ghost var rest := TokenizeFrom(src, lex.pos);
      var r := lex.Next();
      if r.None? {
        done := true;
      } else {
        var l := Lexeme(r.value, lex.span);
        assert rest == [l] + TokenizeFrom(src, lex.pos);
        assert (items + [l]) + TokenizeFrom(src, lex.pos) == items + rest;
        items := items + [l];
      }
    }
  }
}

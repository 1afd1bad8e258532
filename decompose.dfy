/** `Token::split_tokens`, `Token::len` and the `SplitIter` that walks a
    decomposition. */
module Decompose {
  import opened Wrappers
  import opened Tokens

  /** `Token::len`: the fixed source length of a token, `None` for the
      three variable-width variants. It agrees with the spelling table. */
  function Len(t: Token): (r: Option<nat>)
    ensures r.None? <==> t.Integer? || t.Float? || t.Ident?
    ensures r.Some? ==> Spelling(t).Some? && r.value == |Spelling(t).value|
  {
    match t
    case Let => Some(3)
    case Plus => Some(1)
    case Minus => Some(1)
    case Asterisk => Some(1)
    case Divide => Some(1)
    case Xor => Some(1)
    case Not => Some(1)
    case And => Some(1)
    case AndAnd => Some(2)
    case Or => Some(1)
    case OrOr => Some(2)
    case Assign => Some(1)
    case Eq => Some(2)
    case Ne => Some(2)
    case Lt => Some(1)
    case Le => Some(2)
    case Gt => Some(1)
    case Ge => Some(2)
    case Semicolon => Some(1)
    case LeftParen => Some(1)
    case RightParen => Some(1)
    case LeftSquare => Some(1)
    case RightSquare => Some(1)
    case LeftBrace => Some(1)
    case RightBrace => Some(1)
    case Integer(_) => None
    case Float(_) => None
    case Ident => None
  }

  /** Sum of `len` over a token sequence; `None` as soon as one token has
      no fixed length. */
  function TotalLen(ts: seq<Token>): Option<nat> {
    if ts == [] then Some(0)
    else match (Len(ts[0]), TotalLen(ts[1..]))
      case (Some(a), Some(b)) => Some(a + b)
      case _ => None
  }

  /** The concatenated spellings of a token sequence; `None` as soon as one
      token has no fixed spelling. */
  function SpellAll(ts: seq<Token>): Option<string> {
    if ts == [] then Some("")
    else match (Spelling(ts[0]), SpellAll(ts[1..]))
      case (Some(a), Some(b)) => Some(a + b)
      case _ => None
  }

  /** `Token::split_tokens`: exactly the two-character operators are split,
      each into two one-character primitives; every other token is left as
      it is. */
  function SplitTokens(t: Token): (r: seq<Token>)
    ensures Len(t) == Some(2) ==> |r| == 2 && Len(r[0]) == Some(1) && Len(r[1]) == Some(1)
    ensures Len(t) != Some(2) ==> r == [t]
  {
    match t
    case AndAnd => [And, And]
    case OrOr => [Or, Or]
    case Eq => [Assign, Assign]
    case Ne => [Not, Assign]
    case Le => [Lt, Assign]
    case Ge => [Gt, Assign]
    case _ => [t]
  }

  /** Splitting is lossless at the level of source text: the pieces' spellings,
      written one after the other, give back the token's spelling, and their
      lengths add up to the token's length. Together with the shape stated by
      `SplitTokens`, this fixes the six decompositions. */
  lemma SplitPreservesText(t: Token)
    ensures Spelling(t).Some? ==> SpellAll(SplitTokens(t)) == Spelling(t)
    ensures TotalLen(SplitTokens(t)) == Len(t)
  {
    var r := SplitTokens(t);
    if Len(t) == Some(2) {
      SpellPair(r[0], r[1]);
      LenPair(r[0], r[1]);
      match t
      case AndAnd => assert "&" + "&" == "&&";
      case OrOr => assert "|" + "|" == "||";
      case Eq => assert "=" + "=" == "==";
      case Ne => assert "!" + "=" == "!=";
      case Le => assert "<" + "=" == "<=";
      case Ge => assert ">" + "=" == ">=";
    } else {
      SpellSingleton(t);
      assert [t][1..] == [];
    }
  }

  lemma LenPair(a: Token, b: Token)
    requires Len(a).Some? && Len(b).Some?
    ensures TotalLen([a, b]) == Some(Len(a).value + Len(b).value)
  {
    assert [a, b][1..] == [b];
    assert [b][1..] == [];
    assert TotalLen([b]) == Some(Len(b).value);
  }

  lemma SpellPair(a: Token, b: Token)
    requires Spelling(a).Some? && Spelling(b).Some?
    ensures SpellAll([a, b]) == Some(Spelling(a).value + Spelling(b).value)
  {
    assert [a, b][1..] == [b];
    SpellSingleton(b);
  }

  lemma SpellSingleton(t: Token)
    ensures SpellAll([t]) == Spelling(t)
  {
    assert [t][1..] == [];
    if Spelling(t).Some? {
      assert Spelling(t).value + "" == Spelling(t).value;
    }
  }

  /** A token is primitive when splitting leaves it alone. */
  predicate IsPrimitive(t: Token) {
    Len(t) != Some(2)
  }

  /** Every token `split_tokens` produces is primitive, so it splits to
      itself. */
  lemma SplitOutputIsPrimitive(t: Token, u: Token)
    requires u in SplitTokens(t)
    ensures IsPrimitive(u) && SplitTokens(u) == [u]
  {
  }

  /** A consumer's decomposition pass over a whole token stream. */
  function SplitAll(ts: seq<Token>): (r: seq<Token>)
    ensures TotalLen(r) == TotalLen(ts)
    ensures |ts| <= |r| <= 2 * |ts|
    ensures forall k :: 0 <= k < |r| ==> IsPrimitive(r[k])
  {
    if ts == [] then [] else SplitTokens(ts[0]) + SplitAll(ts[1..])
  }

  lemma {:induction false} SplitAllAppend(a: seq<Token>, b: seq<Token>)
    ensures SplitAll(a + b) == SplitAll(a) + SplitAll(b)
    decreases |a|
  {
    if a != [] {
      assert (a + b)[1..] == a[1..] + b;
      SplitAllAppend(a[1..], b);
    } else {
      assert a + b == b;
    }
  }

  /** On a stream of primitives the pass is the identity. */
  lemma {:induction false} SplitAllPrimitive(ts: seq<Token>)
    requires forall k :: 0 <= k < |ts| ==> IsPrimitive(ts[k])
    ensures SplitAll(ts) == ts
    decreases |ts|
  {
    if ts != [] {
      SplitAllPrimitive(ts[1..]);
    }
  }

  /** Decomposing twice is decomposing once. */
  lemma SplitAllIdempotent(ts: seq<Token>)
    ensures SplitAll(SplitAll(ts)) == SplitAll(ts)
  {
    SplitAllPrimitive(SplitAll(ts));
  }

  /** `SplitIter`: the iterator `split_tokens` hands out, a cursor over the
      one- or two-element decomposition. */
  class SplitIter {
    const items: seq<Token>
    var index: nat

    constructor (t: Token)
      ensures items == SplitTokens(t) && index == 0
    {
      items := SplitTokens(t);
      index := 0;
    }

    /** `SplitIter::next`: yields the decomposition's elements in order,
        then `None` for ever. */
    method Next() returns (r: Option<Token>)
      modifies this
      ensures old(index) < |items| ==> r == Some(items[old(index)]) && index == old(index) + 1
      ensures |items| <= old(index) ==> r.None? && index == old(index)
    {
      if index < |items| {
        r := Some(items[index]);
        index := index + 1;
      } else {
        r := None;
      }
    }
  }
}

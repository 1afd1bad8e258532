/** The token taxonomy of the Krill lexer and the fixed spelling that each
    `#[token(..)]` attribute gives a payload-free variant. */
module Tokens {
  import opened Wrappers

  /** 2^128: one more than the largest `u128`. */
  const U128Limit: nat := 0x1_0000_0000_0000_0000_0000_0000_0000_0000

  /** Rust's `u128`. */
  type U128 = n: nat | n < U128Limit

  /** The closed token enum. `Integer` carries its parsed value; `Float`
      carries its source text instead of an `f64`; `Ident` carries nothing
      (the name is the lexeme under the span). */
  datatype Token =
    | Let
    | Plus | Minus | Asterisk | Divide | Xor | Not
    | And | AndAnd | Or | OrOr
    | Assign | Eq | Ne | Lt | Le | Gt | Ge
    | Semicolon | LeftParen | RightParen | LeftSquare | RightSquare | LeftBrace | RightBrace
    | Integer(value: U128)
    | Float(lexeme: string)
    | Ident

  /** The literal text of a fixed-width token; `None` for the three
      variants whose text is read from the source by a regex. Every
      spelling is one to three characters, and only `let` takes three. */
  function Spelling(t: Token): (r: Option<string>)
    ensures r.Some? ==> 0 < |r.value| <= 3
    ensures r.Some? && |r.value| == 3 ==> t == Let
  {
    match t
    case Let => Some("let")
    case Plus => Some("+")
    case Minus => Some("-")
    case Asterisk => Some("*")
    case Divide => Some("/")
    case Xor => Some("^")
    case Not => Some("!")
    case And => Some("&")
    case AndAnd => Some("&&")
    case Or => Some("|")
    case OrOr => Some("||")
    case Assign => Some("=")
    case Eq => Some("==")
    case Ne => Some("!=")
    case Lt => Some("<")
    case Le => Some("<=")
    case Gt => Some(">")
    case Ge => Some(">=")
    case Semicolon => Some(";")
    case LeftParen => Some("(")
    case RightParen => Some(")")
    case LeftSquare => Some("[")
    case RightSquare => Some("]")
    case LeftBrace => Some("{")
    case RightBrace => Some("}")
    case Integer(_) => None
    case Float(_) => None
    case Ident => None
  }

  /** The reserved-word and operator table read backwards: which token, if
      any, is spelled exactly `w`. */
  function FromSpelling(w: string): (r: Option<Token>)
    ensures r.Some? ==> Spelling(r.value) == Some(w)
  {
    if |w| == 1 then
      assert w == [w[0]];
      match w[0]
      case '+' => Some(Plus)
      case '-' => Some(Minus)
      case '*' => Some(Asterisk)
      case '/' => Some(Divide)
      case '^' => Some(Xor)
      case '!' => Some(Not)
      case '&' => Some(And)
      case '|' => Some(Or)
      case '=' => Some(Assign)
      case '<' => Some(Lt)
      case '>' => Some(Gt)
      case ';' => Some(Semicolon)
      case '(' => Some(LeftParen)
      case ')' => Some(RightParen)
      case '[' => Some(LeftSquare)
      case ']' => Some(RightSquare)
      case '{' => Some(LeftBrace)
      case '}' => Some(RightBrace)
      case _ => None
    else if |w| == 2 && w[1] == '=' then
      assert w == [w[0], '='];
      match w[0]
      case '=' => Some(Eq)
      case '!' => Some(Ne)
      case '<' => Some(Le)
      case '>' => Some(Ge)
      case _ => None
    else if w == "&&" then Some(AndAnd)
    else if w == "||" then Some(OrOr)
    else if w == "let" then Some(Let)
    else None
  }

  /** Every fixed spelling names its token and no other: the table has no
      two variants with the same text. */
  lemma SpellingRoundTrip(t: Token)
    ensures Spelling(t).Some? ==> FromSpelling(Spelling(t).value) == Some(t)
    ensures Spelling(t).None? <==> t.Integer? || t.Float? || t.Ident?
  {
    match t
    case Let =>
    case Plus =>
    case Minus =>
    case Asterisk =>
    case Divide =>
    case Xor =>
    case Not =>
    case And =>
    case AndAnd =>
    case Or =>
    case OrOr =>
    case Assign =>
    case Eq =>
    case Ne =>
    case Lt =>
    case Le =>
    case Gt =>
    case Ge =>
    case Semicolon =>
    case LeftParen =>
    case RightParen =>
    case LeftSquare =>
    case RightSquare =>
    case LeftBrace =>
    case RightBrace =>
    case Integer(_) =>
    case Float(_) =>
    case Ident =>
  }

  lemma SpellingInjective(t: Token, u: Token)
    requires Spelling(t).Some? && Spelling(t) == Spelling(u)
    ensures t == u
  {
    SpellingRoundTrip(t);
    SpellingRoundTrip(u);
  }
}

/**
 * The tokens of the remy lexer and the regular languages its rules match.
 *
 * Every rule of the `Token` enum (one `#[token]` or `#[regex]` per variant)
 * and the single skip pattern is given here as a predicate on the matched
 * text, written to follow the shape of the source's regular expression.
 */
module Tokens {

  /** One lexeme; the payload of `Ident`, `NormalString` and `Number` is the exact matched text. */
  datatype Token =
    | Comma
    | DoubleColon
    | Colon
    | SemiColon
    | Ident(text: string)
    | LParen
    | RParen
    | LBracket
    | RBracket
    | Exclamation
    | FatArrow
    | NormalString(text: string)
    | LBrace
    | RBrace
    | Number(text: string)

  /** The source text a token stands for. */
  function Text(t: Token): string {
    match t
    case Comma => ","
    case DoubleColon => "::"
    case Colon => ":"
    case SemiColon => ";"
    case Ident(x) => x
    case LParen => "("
    case RParen => ")"
    case LBracket => "["
    case RBracket => "]"
    case Exclamation => "!"
    case FatArrow => "=>"
    case NormalString(x) => x
    case LBrace => "{"
    case RBrace => "}"
    case Number(x) => x
  }

  /** Fixed-spelling tokens (`#[token(...)]` variants). */
  predicate IsPunct(t: Token) {
    !(t.Ident? || t.NormalString? || t.Number?)
  }

  /**
   * Which regular expression defines `Number`: the one in the source, whose
   * fraction group `(0-9)+` repeats the literal text "0-9", or the evidently
   * intended `[0-9]+(\.[0-9]+)?`.
   */
  datatype NumberSyntax = AsWritten | Intended

  /** A lexer rule: the skip pattern, a fixed-spelling token, or one of the three regex tokens. */
  datatype Rule = Skip | Punct(token: Token) | IdentRule | StringRule | NumberRule

  // Character classes used by the rules.

  predicate IsWs(c: char) {
    c == ' ' || c == '\t' || c == '\r' || c == '\n'
  }

  predicate IsNotNewline(c: char) {
    c != '\n'
  }

  // The class excluding the four characters ( * / ) -- the body of a block comment.
  predicate IsBlockBodyChar(c: char) {
    c != '(' && c != '*' && c != '/' && c != ')'
  }

  predicate IsDigit(c: char) {
    '0' <= c <= '9'
  }

  predicate IsIdentStart(c: char) {
    c == '_' || 'a' <= c <= 'z' || 'A' <= c <= 'Z'
  }

  predicate IsIdentChar(c: char) {
    IsIdentStart(c) || IsDigit(c)
  }

  /** `[^"(\$\{)]`, a single plain character of a string body. */
  predicate IsStringChar(c: char) {
    c != '"' && c != '(' && c != '$' && c != '{' && c != ')'
  }

  // The skip pattern: a line comment, a run of blanks, or a block comment
  // whose body holds none of ( * / ).

  predicate IsLineComment(w: string) {
    |w| >= 2 && w[0] == '/' && w[1] == '/' && forall j | 2 <= j < |w| :: IsNotNewline(w[j])
  }

  predicate IsWhitespace(w: string) {
    |w| >= 1 && forall j | 0 <= j < |w| :: IsWs(w[j])
  }

  predicate IsBlockComment(w: string) {
    && |w| >= 4
    && w[0] == '/' && w[1] == '*'
    && w[|w| - 2] == '*' && w[|w| - 1] == '/'
    && forall j | 2 <= j < |w| - 2 :: IsBlockBodyChar(w[j])
  }

  /** `[_a-zA-Z][_a-zA-Z0-9]*` */
  predicate IsIdentText(w: string) {
    |w| >= 1 && IsIdentStart(w[0]) && forall j | 1 <= j < |w| :: IsIdentChar(w[j])
  }

  /** `(?:[^"(\$\{)]|\\")*`: a run of plain characters and escaped quotes. */
  predicate StringItems(b: string)
    decreases |b|
  {
    || |b| == 0
    || (IsStringChar(b[0]) && StringItems(b[1..]))
    || (|b| >= 2 && b[0] == '\\' && b[1] == '"' && StringItems(b[2..]))
  }

  /** `"(?:[^"(\$\{)]|\\")*"`, quotes included. */
  predicate IsStringText(w: string) {
    |w| >= 2 && w[0] == '"' && w[|w| - 1] == '"' && StringItems(w[1..|w| - 1])
  }

  predicate AllDigits(w: string) {
    forall j | 0 <= j < |w| :: IsDigit(w[j])
  }

  /** `(0-9)+`: one or more copies of the three characters "0-9". */
  predicate IsRepeated09(w: string)
    decreases |w|
  {
    |w| >= 3 && w[..3] == "0-9" && (|w| == 3 || IsRepeated09(w[3..]))
  }

  /**
   * The text after the `.` of a `Number`: `(0-9)+` as the source writes it,
   * `[0-9]+` as evidently intended.
   */
  predicate IsFraction(mode: NumberSyntax, f: string) {
    match mode
    case AsWritten => IsRepeated09(f)
    case Intended => |f| > 0 && AllDigits(f)
  }

  /** `[0-9]+(\.(0-9)+)?` as written, or `[0-9]+(\.[0-9]+)?` as intended. */
  predicate IsNumberText(mode: NumberSyntax, w: string) {
    exists d | 1 <= d <= |w| ::
      AllDigits(w[..d]) && (d == |w| || (w[d] == '.' && IsFraction(mode, w[d + 1..])))
  }

  /** The language of each rule. */
  predicate Matches(mode: NumberSyntax, r: Rule, w: string) {
    match r
    case Skip => IsLineComment(w) || IsWhitespace(w) || IsBlockComment(w)
    case Punct(t) => IsPunct(t) && w == Text(t)
    case IdentRule => IsIdentText(w)
    case StringRule => IsStringText(w)
    case NumberRule => IsNumberText(mode, w)
  }

  /** The token a non-skip rule emits for the text it matched. */
  function MakeToken(r: Rule, w: string): (t: Token)
    requires r != Skip
    ensures r.Punct? ==> t == r.token
    ensures !r.Punct? ==> Text(t) == w
  {
    match r
    case Punct(t) => t
    case IdentRule => Ident(w)
    case StringRule => NormalString(w)
    case NumberRule => Number(w)
  }

  /** The token made for a match spells the matched text and is of the matching rule's kind. */
  lemma MatchedToken(mode: NumberSyntax, r: Rule, w: string)
    requires r != Skip && Matches(mode, r, w)
    ensures var t := MakeToken(r, w);
      && Text(t) == w
      && (IsPunct(t) <==> r.Punct?)
      && (t.Ident? <==> r == IdentRule)
      && (t.NormalString? <==> r == StringRule)
      && (t.Number? <==> r == NumberRule)
  {
  }
}

/**
 * Consequences of longest-match lexing that the remy token rules promise:
 * how single words lex, that `::` is one token, that whitespace and comments
 * vanish, and where the lexer reports an unrecognized character.
 */
module LexerProperties {
  import opened Wrappers
  import opened Tokens
  import opened Scanner
  import opened Lexer

  /** A text matched by two rules is matched by the same rule twice. */
  lemma RuleOfText(mode: NumberSyntax, r1: Rule, r2: Rule, w: string)
    requires r1 != Skip && Matches(mode, r1, w) && Matches(mode, r2, w)
    ensures r1 == r2
  {
    MatchShape(mode, r1, w);
    MatchShape(mode, r2, w);
  }

  /** A whole text in the language of a token rule lexes as exactly that one token. */
  lemma WordLexesAlone(mode: NumberSyntax, r: Rule, w: string)
    requires r != Skip && Matches(mode, r, w)
    ensures Lex(mode, w) == Success([MakeToken(r, w)])
  {
    MatchShape(mode, r, w);
    assert w[0..|w|] == w;
    forall r' | r' != r ensures !MatchesAt(mode, r', w, 0, |w|) {
      if MatchesAt(mode, r', w, 0, |w|) {
        RuleOfText(mode, r, r', w);
      }
    }
    assert IsLongestMatch(mode, w, 0, r, |w|);
    ScanFindsLongest(mode, w, 0, r, |w|);
    LexFromStep(mode, w, 0, r, |w|);
    assert LexFrom(mode, w, |w|) == Success([]);
    assert [MakeToken(r, w)] + [] == [MakeToken(r, w)];
  }

  /** `::` is a single `DoubleColon`, never two `Colon`s; a lone `:` is a `Colon`. */
  lemma ColonsLex(mode: NumberSyntax)
    ensures Lex(mode, "::") == Success([DoubleColon])
    ensures Lex(mode, ":") == Success([Colon])
  {
    WordLexesAlone(mode, Punct(DoubleColon), "::");
    WordLexesAlone(mode, Punct(Colon), ":");
  }

  /** Wherever `::` occurs at the start of a lexeme, the lexeme is one `DoubleColon`. */
  lemma DoubleColonIsOneToken(mode: NumberSyntax, s: string, i: nat)
    requires i + 1 < |s| && s[i] == ':' && s[i + 1] == ':'
    ensures Scan(mode, s, i) == Some(Lexeme(Punct(DoubleColon), 2))
    ensures LexFrom(mode, s, i).Success? ==>
      |LexFrom(mode, s, i).value| > 0 && LexFrom(mode, s, i).value[0] == DoubleColon
  {
    ColonLongest(mode, s, i);
    ScanFindsLongest(mode, s, i, Punct(DoubleColon), 2);
    LexFromStep(mode, s, i, Punct(DoubleColon), 2);
  }

  /** An identifier-shaped word is one `Ident` carrying exactly its text. */
  lemma IdentWordLexes(mode: NumberSyntax, w: string)
    requires IsIdentText(w)
    ensures Lex(mode, w) == Success([Ident(w)])
  {
    WordLexesAlone(mode, IdentRule, w);
  }

  /** There are no keyword tokens: `match`, `true` and `false` are identifiers. */
  lemma KeywordsAreIdents(mode: NumberSyntax)
    ensures Lex(mode, "match") == Success([Ident("match")])
    ensures Lex(mode, "true") == Success([Ident("true")])
    ensures Lex(mode, "false") == Success([Ident("false")])
  {
    IdentWordLexes(mode, "match");
    IdentWordLexes(mode, "true");
    IdentWordLexes(mode, "false");
  }

  /** A string literal lexes as one `NormalString` whose text keeps both quotes. */
  lemma StringWordLexes(mode: NumberSyntax, w: string)
    requires IsStringText(w)
    ensures Lex(mode, w) == Success([NormalString(w)])
    ensures |w| >= 2 && w[0] == '"' && w[|w| - 1] == '"'
  {
    WordLexesAlone(mode, StringRule, w);
  }

  /** The text a lexed token carries is in the language of its rule. */
  predicate WellFormedToken(mode: NumberSyntax, t: Token) {
    match t
    case Ident(x) => IsIdentText(x)
    case NormalString(x) => IsStringText(x)
    case Number(x) => IsNumberText(mode, x)
    case _ => IsPunct(t)
  }

  predicate AllWellFormed(mode: NumberSyntax, ts: seq<Token>) {
    forall k | 0 <= k < |ts| :: WellFormedToken(mode, ts[k])
  }

  lemma MadeTokenWellFormed(mode: NumberSyntax, r: Rule, w: string)
    requires r != Skip && Matches(mode, r, w)
    ensures WellFormedToken(mode, MakeToken(r, w))
  {
  }

  lemma AllWellFormedCons(mode: NumberSyntax, t: Token, ts: seq<Token>)
    requires WellFormedToken(mode, t) && AllWellFormed(mode, ts)
    ensures AllWellFormed(mode, [t] + ts)
  {
    var us := [t] + ts;
    forall k | 0 <= k < |us| ensures WellFormedToken(mode, us[k]) {
      if k > 0 {
        assert us[k] == ts[k - 1];
      }
    }
  }

  /** Every token of a longest-match tokenization is well formed for its kind. */
  lemma {:induction false} TokenizationWellFormed(mode: NumberSyntax, s: string, i: nat, ts: seq<Token>)
    requires i <= |s| && Tokenization(mode, s, i, ts)
    ensures AllWellFormed(mode, ts)
    decreases |s| - i
  {
    if i < |s| {
      var n, rest := TokenizationHead(mode, s, i, ts);
      TokenizationWellFormed(mode, s, i + n, rest);
      if rest != ts {
        AllWellFormedCons(mode, ts[0], rest);
        assert [ts[0]] + rest == ts;
      }
    }
  }

  /** The first step of a tokenization: either a skip match, or a well-formed token followed by the rest. */
  lemma TokenizationHead(mode: NumberSyntax, s: string, i: nat, ts: seq<Token>) returns (n: nat, rest: seq<Token>)
    requires i < |s| && Tokenization(mode, s, i, ts)
    ensures 0 < n && i + n <= |s| && Tokenization(mode, s, i + n, rest)
    ensures rest == ts || (|ts| > 0 && rest == ts[1..] && WellFormedToken(mode, ts[0]))
  {
    var r;
    r, n := TokenizationWitness(mode, s, i, ts);
    if r == Skip {
      rest := ts;
    } else {
      rest := ts[1..];
      HeadWellFormed(mode, r, s[i..i + n], ts);
    }
  }

  lemma HeadWellFormed(mode: NumberSyntax, r: Rule, w: string, ts: seq<Token>)
    requires r != Skip && Matches(mode, r, w) && |ts| > 0 && ts[0] == MakeToken(r, w)
    ensures WellFormedToken(mode, ts[0])
  {
    MadeTokenWellFormed(mode, r, w);
  }

  /** Every token the lexer emits is well formed for its kind. */
  lemma LexedTokensWellFormed(mode: NumberSyntax, s: string)
    ensures Lex(mode, s).Success? ==> AllWellFormed(mode, Lex(mode, s).value)
  {
    if Lex(mode, s).Success? {
      LexIsTokenization(mode, s, 0, Lex(mode, s).value);
      TokenizationWellFormed(mode, s, 0, Lex(mode, s).value);
    }
  }

  /** A character that starts no token and no skip match stops the lexer right there. */
  lemma UnrecognizedCharFails(mode: NumberSyntax, s: string, i: nat)
    requires i < |s| && Classify(s[i]) == Other
    ensures LexFrom(mode, s, i) == Failure(UnrecognizedToken(i))
  {
  }

  /** `@` is not a token of the language. */
  lemma AtSignFails(mode: NumberSyntax)
    ensures Lex(mode, "@") == Failure(UnrecognizedToken(0))
    ensures Lex(mode, "a @") == Failure(UnrecognizedToken(2))
  {
    UnrecognizedCharFails(mode, "@", 0);
    var s := "a @";
    UnrecognizedCharFails(mode, s, 2);
    LexFromStep(mode, s, 1, Skip, 1);
    LexFromStep(mode, s, 0, IdentRule, 1);
  }

  // ---------------------------------------------------------------- trivia

  /**
   * The `k` characters at `i` are one piece of trivia: a blank run, a block
   * comment, or a line comment that runs to a newline or to the end of the text.
   */
  predicate TriviaPieceAt(s: string, i: nat, k: nat) {
    && 0 < k && i + k <= |s|
    && (|| IsWhitespace(s[i..i + k])
        || IsBlockComment(s[i..i + k])
        || (IsLineComment(s[i..i + k]) && (i + k == |s| || s[i + k] == '\n')))
  }

  /** From `i` on, the text is made only of trivia pieces. */
  ghost predicate TriviaFrom(s: string, i: nat)
    requires i <= |s|
    decreases |s| - i
  {
    i == |s| || exists k | 0 < k <= |s| - i && TriviaPieceAt(s, i, k) :: TriviaFrom(s, i + k)
  }

  /** Trivia starting with a blank still is trivia one character later. */
  lemma TriviaSkipBlank(s: string, i: nat)
    requires i < |s| && IsWs(s[i]) && TriviaFrom(s, i)
    ensures TriviaFrom(s, i + 1)
  {
    var k :| 0 < k <= |s| - i && TriviaPieceAt(s, i, k) && TriviaFrom(s, i + k);
    var w := s[i..i + k];
    assert w[0] == s[i];
    assert IsWhitespace(w);
    if k > 1 {
      var w' := s[i + 1..i + k];
      assert forall j | 0 <= j < |w'| :: w'[j] == w[j + 1];
      assert TriviaPieceAt(s, i + 1, k - 1);
    }
  }

  lemma {:induction false} TriviaSkipBlanks(s: string, i: nat, j: nat)
    requires i <= j <= |s| && TriviaFrom(s, i)
    requires forall p | i <= p < j :: IsWs(s[p])
    ensures TriviaFrom(s, j)
    decreases j - i
  {
    if i < j {
      TriviaSkipBlank(s, i);
      TriviaSkipBlanks(s, i + 1, j);
    }
  }

  /** A line comment piece is exactly what the scanner consumes for it. */
  lemma LineCommentPiece(mode: NumberSyntax, s: string, i: nat, k: nat)
    requires TriviaPieceAt(s, i, k) && i + 1 < |s| && s[i] == '/' && s[i + 1] == '/'
    ensures Scan(mode, s, i) == Some(Lexeme(Skip, k))
  {
    var w := s[i..i + k];
    assert w[0] == s[i];
    var probe := if k > 1 then 1 else 0;
    assert w[probe] == s[i + probe];
    assert IsLineComment(w);
    assert forall j | i + 2 <= j < i + k :: IsNotNewline(s[j]) by {
      forall j | i + 2 <= j < i + k ensures IsNotNewline(s[j]) {
        assert w[j - i] == s[j];
      }
    }
    RunExact(s, i + 2, IsNotNewline, k - 2);
  }

  /** A block comment piece is exactly what the scanner consumes for it. */
  lemma BlockCommentPiece(mode: NumberSyntax, s: string, i: nat, k: nat)
    requires TriviaPieceAt(s, i, k) && i + 1 < |s| && s[i] == '/' && s[i + 1] == '*'
    ensures Scan(mode, s, i) == Some(Lexeme(Skip, k))
  {
    var w := s[i..i + k];
    assert w[0] == s[i];
    var probe := if k > 1 then 1 else 0;
    assert w[probe] == s[i + probe];
    assert IsBlockComment(w);
    assert w[k - 2] == s[i + k - 2] && w[k - 1] == s[i + k - 1];
    assert forall j | i + 2 <= j < i + k - 2 :: IsBlockBodyChar(s[j]) by {
      forall j | i + 2 <= j < i + k - 2 ensures IsBlockBodyChar(s[j]) {
        assert w[j - i] == s[j];
      }
    }
    RunExact(s, i + 2, IsBlockBodyChar, k - 4);
  }

  /** At the start of trivia the scanner consumes a skip match after which trivia continues. */
  lemma TriviaScan(mode: NumberSyntax, s: string, i: nat) returns (n: nat)
    requires i < |s| && TriviaFrom(s, i)
    ensures 0 < n <= |s| - i && Scan(mode, s, i) == Some(Lexeme(Skip, n)) && TriviaFrom(s, i + n)
  {
    var k :| 0 < k <= |s| - i && TriviaPieceAt(s, i, k) && TriviaFrom(s, i + k);
    var w := s[i..i + k];
    assert w[0] == s[i];
    var probe := if k > 1 then 1 else 0;
    assert w[probe] == s[i + probe];
    if IsWs(s[i]) {
      n := Run(s, i, IsWs);
      RunSpec(s, i, IsWs);
      TriviaSkipBlanks(s, i, i + n);
    } else if s[i + 1] == '/' {
      LineCommentPiece(mode, s, i, k);
      n := k;
    } else {
      BlockCommentPiece(mode, s, i, k);
      n := k;
    }
  }

  /** Text made only of blanks and comments lexes to no tokens at all. */
  lemma {:induction false} TriviaLexesToNothing(mode: NumberSyntax, s: string, i: nat)
    requires i <= |s| && TriviaFrom(s, i)
    ensures LexFrom(mode, s, i) == Success([])
    decreases |s| - i
  {
    if i < |s| {
      var n := TriviaScan(mode, s, i);
      LexFromStep(mode, s, i, Skip, n);
      TriviaLexesToNothing(mode, s, i + n);
    }
  }

  /** Every skip match the scanner finds is a trivia piece. */
  lemma SkipMatchIsPiece(mode: NumberSyntax, s: string, i: nat, n: nat)
    requires i < |s| && Scan(mode, s, i) == Some(Lexeme(Skip, n))
    ensures TriviaPieceAt(s, i, n)
  {
    ScanIsLongestMatch(mode, s, i);
    var w := s[i..i + n];
    assert MatchesAt(mode, Skip, s, i, n);
    if IsLineComment(w) {
      assert w[0] == s[i] && w[1] == s[i + 1];
      RunSpec(s, i + 2, IsNotNewline);
    }
  }

  /** Conversely, text that lexes to no tokens is made only of blanks and comments. */
  lemma {:induction false} NothingLexedIsTrivia(mode: NumberSyntax, s: string, i: nat)
    requires i <= |s| && LexFrom(mode, s, i) == Success([])
    ensures TriviaFrom(s, i)
    decreases |s| - i
  {
    if i < |s| {
      var rule, n := Scan(mode, s, i).value.rule, Scan(mode, s, i).value.len;
      LexFromStep(mode, s, i, rule, n);
      if rule == Skip {
        NothingLexedIsTrivia(mode, s, i + n);
        SkipMatchIsPiece(mode, s, i, n);
      }
    }
  }

  /** Lexing yields no tokens exactly when the text is blanks and comments. */
  lemma TriviaIffNoTokens(mode: NumberSyntax, s: string)
    ensures Lex(mode, s) == Success([]) <==> TriviaFrom(s, 0)
  {
    if TriviaFrom(s, 0) {
      TriviaLexesToNothing(mode, s, 0);
    }
    if Lex(mode, s) == Success([]) {
      NothingLexedIsTrivia(mode, s, 0);
    }
  }

  // ---------------------------------------------------------------- numbers

  /** A whole text in the `Number` language lexes as that one `Number`. */
  lemma NumberWordLexes(mode: NumberSyntax, w: string)
    requires IsNumberText(mode, w)
    ensures Lex(mode, w) == Success([Number(w)])
  {
    WordLexesAlone(mode, NumberRule, w);
  }

  /** The text of a decimal number: digits, a point, digits. */
  function Decimal(d: string, f: string): (w: string)
    ensures |w| == |d| + 1 + |f| && w[|d|] == '.'
    ensures w[..|d|] == d && w[|d| + 1..] == f
  {
    d + "." + f
  }

  /**
   * As written, the fraction group of the `Number` pattern accepts only copies
   * of the text "0-9", so a decimal such as `1.5` lexes its integer part and
   * then stops with an error at the point.
   */
  lemma AsWrittenRejectsDecimal(d: string, f: string)
    requires |d| > 0 && AllDigits(d) && |f| > 0 && AllDigits(f)
    ensures Lex(AsWritten, Decimal(d, f)) == Failure(UnrecognizedToken(|d|))
  {
    var s := Decimal(d, f);
    assert s[0] == d[0] && s[|d| + 1] == f[0];
    assert forall j | 0 <= j < |d| :: s[j] == d[j];
    RunExact(s, 0, IsDigit, |d|);
    assert Repeat09Count(s, |d| + 1) == 0 by {
      if |d| + 4 <= |s| {
        assert s[|d| + 1..|d| + 4][1] == s[|d| + 2] == f[1];
      }
    }
    assert Scan(AsWritten, s, 0) == Some(Lexeme(NumberRule, |d|));
    LexFromStep(AsWritten, s, 0, NumberRule, |d|);
    UnrecognizedCharFails(AsWritten, s, |d|);
  }

  lemma OnePointFiveAsWritten()
    ensures Lex(AsWritten, "1.5") == Failure(UnrecognizedToken(1))
  {
    AsWrittenRejectsDecimal("1", "5");
    assert Decimal("1", "5") == "1.5";
  }

  /** What the pattern as written does accept: a literal "0-9" after the point. */
  lemma AsWrittenAcceptsLiteralRange()
    ensures Lex(AsWritten, "1.0-9") == Success([Number("1.0-9")])
  {
    var w := "1.0-9";
    assert w[..1] == "1" && w[2..] == "0-9" && IsRepeated09(w[2..]);
    assert IsNumberText(AsWritten, w);
    NumberWordLexes(AsWritten, w);
  }

  /** With the intended pattern `[0-9]+(\.[0-9]+)?` every decimal is one `Number`. */
  lemma IntendedAcceptsDecimal(d: string, f: string)
    requires |d| > 0 && AllDigits(d) && |f| > 0 && AllDigits(f)
    ensures Lex(Intended, Decimal(d, f)) == Success([Number(Decimal(d, f))])
  {
    var w := Decimal(d, f);
    assert IsFraction(Intended, w[|d| + 1..]);
    assert IsNumberText(Intended, w);
    NumberWordLexes(Intended, w);
  }
}

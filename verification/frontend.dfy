/**
 * The remy front end: lex a source text, then parse the tokens as a file.
 * Which `Number` pattern the lexer uses is a parameter: `AsWritten` is the
 * pattern of the token rules, `Intended` the corrected one.
 */
module Frontend {
  import opened Wrappers
  import opened Tokens
  import opened Scanner
  import opened Lexer
  import opened Ast
  import opened Printer
  import opened Parser
  import opened RoundTrip

  datatype FrontError =
    | LexFailed(at: nat)
    | ParseFailed

  /** Lex `s`, then parse the tokens as a file; either stage can fail. */
  function ParseSource(mode: NumberSyntax, s: string): (r: Result<File, FrontError>)
    ensures r.Failure? && r.error.LexFailed? ==> r.error.at < |s|
    ensures r.Failure? && r.error.LexFailed? ==> NothingMatches(mode, s, r.error.at) && ChainTo(mode, s, 0, r.error.at)
  {
    LexFailureIsNoMatch(mode, s, 0);
    match Lex(mode, s)
    case Failure(e) => Failure(LexFailed(e.at))
    case Success(toks) =>
      match ParseFile(toks)
      case None => Failure(ParseFailed)
      case Some(f) => Success(f)
  }

  /**
   * A source text yields `f` exactly when it lexes, longest match by longest
   * match, to the printed form of `f`, and `f` is in the grammar.
   */
  lemma ParseSourceIff(mode: NumberSyntax, s: string, f: File)
    ensures ParseSource(mode, s) == Success(f) <==>
      FileInGrammar(f) && Tokenization(mode, s, 0, PrintFile(f))
  {
    if FileInGrammar(f) {
      LexIsTokenization(mode, s, 0, PrintFile(f));
    }
    if Lex(mode, s).Success? {
      ParseFileIff(Lex(mode, s).value, f);
    }
  }

  /**
   * A lexing error is reported at the first offset where the chain of
   * longest matches from the start gets stuck: no token rule and no skip
   * pattern matches there, and the chain reaches no other such offset.
   */
  lemma LexFailedAtNoMatch(mode: NumberSyntax, s: string)
    ensures ParseSource(mode, s).Failure? && ParseSource(mode, s).error.LexFailed? ==>
      NothingMatches(mode, s, ParseSource(mode, s).error.at) && ChainTo(mode, s, 0, ParseSource(mode, s).error.at)
    ensures ParseSource(mode, s).Failure? && ParseSource(mode, s).error.LexFailed? ==>
      forall j | ChainTo(mode, s, 0, j) && NothingMatches(mode, s, j) :: j == ParseSource(mode, s).error.at
  {
    LexFailureIsNoMatch(mode, s, 0);
    if ParseSource(mode, s).Failure? && ParseSource(mode, s).error.LexFailed? {
      var at := ParseSource(mode, s).error.at;
      forall j | ChainTo(mode, s, 0, j) && NothingMatches(mode, s, j) ensures j == at {
        StuckPointUnique(mode, s, 0, j, at);
      }
    }
  }

  /** A parse error means the text lexes, but to tokens that are no file's printed form. */
  lemma ParseFailedMeansNoFile(mode: NumberSyntax, s: string, f: File)
    requires ParseSource(mode, s) == Failure(ParseFailed)
    ensures Lex(mode, s).Success?
    ensures !(FileInGrammar(f) && Lex(mode, s).value == PrintFile(f))
  {
    ParseFileIff(Lex(mode, s).value, f);
  }
}

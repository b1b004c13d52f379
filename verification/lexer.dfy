/**
 * The remy lexer: repeated maximal munch from the start of the text,
 * dropping skip matches, stopping at the first offset no rule matches.
 */
module Lexer {
  import opened Wrappers
  import opened Tokens
  import opened Scanner

  /** The only lexical error: no token and no skip pattern matches at offset `at`. */
  datatype LexError = UnrecognizedToken(at: nat)

  /** The scanner over the whole of `s`, returning `None` past its end. */
  function ScanAt(mode: NumberSyntax, s: string, j: nat): (m: Option<Lexeme>)
    ensures m.Some? ==> j < |s| && 0 < m.value.len <= |s| - j
  {
    if j < |s| then Scan(mode, s, j) else None
  }

  function ScannerOf(mode: NumberSyntax, s: string): nat -> Option<Lexeme> {
    (j: nat) => ScanAt(mode, s, j)
  }

  /** Within `s`, `scan` only returns non-empty lexemes that stay within `s`. */
  ghost predicate Advances(s: string, scan: nat -> Option<Lexeme>) {
    forall j: nat | j < |s| :: scan(j).Some? ==> 0 < scan(j).value.len && j + scan(j).value.len <= |s|
  }

  /**
   * The lexer loop, for any scanner: tokens of `s[i..]`, or the first
   * offset at which the scanner finds nothing. Skip lexemes are dropped.
   */
  function LexWith(s: string, scan: nat -> Option<Lexeme>, i: nat): (r: Result<seq<Token>, LexError>)
    requires i <= |s| && Advances(s, scan)
    ensures r.Failure? ==> i <= r.error.at < |s|
    decreases |s| - i
  {
    if i == |s| then Success([])
    else match scan(i)
      case None => Failure(UnrecognizedToken(i))
      case Some(Lexeme(rule, n)) =>
        var rest := LexWith(s, scan, i + n);
        if rule == Skip || rest.Failure? then rest
        else Success([MakeToken(rule, s[i..i + n])] + rest.value)
  }

  /** Tokens of `s[i..]`, or the first offset at which nothing matches. */
  function LexFrom(mode: NumberSyntax, s: string, i: nat): (r: Result<seq<Token>, LexError>)
    requires i <= |s|
  {
    LexWith(s, ScannerOf(mode, s), i)
  }

  /** Lex a whole source text. */
  function Lex(mode: NumberSyntax, s: string): Result<seq<Token>, LexError> {
    LexFrom(mode, s, 0)
  }

  /**
   * The declarative reading of the lexer: from `i` on, the text splits into
   * longest matches; skip matches contribute nothing and every other match
   * contributes its token, in order.
   */
  ghost predicate Tokenization(mode: NumberSyntax, s: string, i: nat, ts: seq<Token>)
    requires i <= |s|
    decreases |s| - i
  {
    if i == |s| then ts == []
    else exists r, n | IsLongestMatch(mode, s, i, r, n) ::
      if r == Skip then Tokenization(mode, s, i + n, ts)
      else |ts| > 0 && ts[0] == MakeToken(r, s[i..i + n]) && Tokenization(mode, s, i + n, ts[1..])
  }

  /** At most one rule and length can be the longest match. */
  lemma LongestMatchUnique(mode: NumberSyntax, s: string, i: nat, r1: Rule, n1: nat, r2: Rule, n2: nat)
    requires IsLongestMatch(mode, s, i, r1, n1) && IsLongestMatch(mode, s, i, r2, n2)
    ensures r1 == r2 && n1 == n2
  {
  }

  /** One step of `Tokenization` at `i`, for the match `r`, `n`. */
  ghost predicate TokenizationStep(mode: NumberSyntax, s: string, i: nat, r: Rule, n: nat, ts: seq<Token>)
    requires i + n <= |s|
  {
    if r == Skip then Tokenization(mode, s, i + n, ts)
    else |ts| > 0 && ts[0] == MakeToken(r, s[i..i + n]) && Tokenization(mode, s, i + n, ts[1..])
  }

  lemma TokenizationUnfold(mode: NumberSyntax, s: string, i: nat, r: Rule, n: nat, ts: seq<Token>)
    requires i < |s| && IsLongestMatch(mode, s, i, r, n)
    ensures Tokenization(mode, s, i, ts) <==> TokenizationStep(mode, s, i, r, n, ts)
  {
    if Tokenization(mode, s, i, ts) {
      var r', n' :| IsLongestMatch(mode, s, i, r', n') && TokenizationStep(mode, s, i, r', n', ts);
      LongestMatchUnique(mode, s, i, r, n, r', n');
    }
    if TokenizationStep(mode, s, i, r, n, ts) {
      assert IsLongestMatch(mode, s, i, r, n) && TokenizationStep(mode, s, i, r, n, ts);
    }
  }

  /** The match a tokenization at `i` starts with. */
  lemma TokenizationWitness(mode: NumberSyntax, s: string, i: nat, ts: seq<Token>) returns (r: Rule, n: nat)
    requires i < |s| && Tokenization(mode, s, i, ts)
    ensures 0 < n && i + n <= |s| && MatchesAt(mode, r, s, i, n)
    ensures TokenizationStep(mode, s, i, r, n, ts)
  {
    var r', n' :| IsLongestMatch(mode, s, i, r', n') && TokenizationStep(mode, s, i, r', n', ts);
    r, n := r', n';
  }

  lemma NoTokenizationWithoutMatch(mode: NumberSyntax, s: string, i: nat, ts: seq<Token>)
    requires i < |s| && NothingMatches(mode, s, i)
    ensures !Tokenization(mode, s, i, ts)
  {
  }

  /** The lexeme `m` found at `j` is the longest match there, and `None` means nothing matches. */
  ghost predicate IsLongestLexeme(mode: NumberSyntax, s: string, j: nat, m: Option<Lexeme>) {
    match m
    case None => NothingMatches(mode, s, j)
    case Some(l) => IsLongestMatch(mode, s, j, l.rule, l.len)
  }

  /** `scan` finds the longest match at every offset of `s`. */
  ghost predicate FindsLongest(mode: NumberSyntax, s: string, scan: nat -> Option<Lexeme>) {
    forall j: nat {:trigger IsLongestLexeme(mode, s, j, scan(j))} | j < |s| :: IsLongestLexeme(mode, s, j, scan(j))
  }

  /** The scanner of the remy lexer is such a scanner. */
  lemma ScannerOfFindsLongest(mode: NumberSyntax, s: string)
    ensures Advances(s, ScannerOf(mode, s)) && FindsLongest(mode, s, ScannerOf(mode, s))
  {
    forall j: nat | j < |s|
      ensures IsLongestLexeme(mode, s, j, ScannerOf(mode, s)(j))
    {
      ScanIsLongestMatch(mode, s, j);
    }
  }

  /** A tokenization at `i` takes its first step with the scanner's lexeme. */
  lemma TokenizationFromScan(mode: NumberSyntax, s: string, scan: nat -> Option<Lexeme>, i: nat, ts: seq<Token>)
    requires i < |s| && FindsLongest(mode, s, scan) && Tokenization(mode, s, i, ts)
    ensures scan(i).Some? && i + scan(i).value.len <= |s|
    ensures TokenizationStep(mode, s, i, scan(i).value.rule, scan(i).value.len, ts)
  {
    var r, n :| IsLongestMatch(mode, s, i, r, n) && TokenizationStep(mode, s, i, r, n, ts);
    assert IsLongestLexeme(mode, s, i, scan(i));
    assert MatchesAt(mode, r, s, i, n);
    var m := scan(i).value;
    LongestMatchUnique(mode, s, i, r, n, m.rule, m.len);
  }

  /** What the lexer loop returns with a longest-match scanner is the longest-match tokenization. */
  lemma {:induction false} LexWithSound(mode: NumberSyntax, s: string, scan: nat -> Option<Lexeme>, i: nat)
    requires i <= |s| && Advances(s, scan) && FindsLongest(mode, s, scan)
    requires LexWith(s, scan, i).Success?
    ensures Tokenization(mode, s, i, LexWith(s, scan, i).value)
    decreases |s| - i
  {
    if i < |s| {
      var ts := LexWith(s, scan, i).value;
      var m := scan(i).value;
      assert IsLongestLexeme(mode, s, i, scan(i));
      LexWithStep(s, scan, i);
      LexWithSound(mode, s, scan, i + m.len);
      TokenizationUnfold(mode, s, i, m.rule, m.len, ts);
      if m.rule != Skip {
        var rest := LexWith(s, scan, i + m.len).value;
        assert ts == [MakeToken(m.rule, s[i..i + m.len])] + rest;
        assert ts[1..] == rest;
      }
    }
  }

  /** One turn of the lexer loop, for a scanner that finds a lexeme at `i`. */
  lemma LexWithStep(s: string, scan: nat -> Option<Lexeme>, i: nat)
    requires i < |s| && Advances(s, scan) && scan(i).Some?
    ensures var m := scan(i).value; var rest := LexWith(s, scan, i + m.len);
      && (m.rule == Skip || rest.Failure? ==> LexWith(s, scan, i) == rest)
      && (m.rule != Skip && rest.Success? ==>
            LexWith(s, scan, i) == Success([MakeToken(m.rule, s[i..i + m.len])] + rest.value))
  {
  }

  /** A longest-match tokenization is what the lexer loop returns with a longest-match scanner. */
  lemma {:induction false} LexWithComplete(mode: NumberSyntax, s: string, scan: nat -> Option<Lexeme>, i: nat, ts: seq<Token>)
    requires i <= |s| && Advances(s, scan) && FindsLongest(mode, s, scan)
    requires Tokenization(mode, s, i, ts)
    ensures LexWith(s, scan, i) == Success(ts)
    decreases |s| - i
  {
    if i < |s| {
      var n, rest := LexWithCompleteStep(mode, s, scan, i, ts);
      LexWithComplete(mode, s, scan, i + n, rest);
    }
  }

  /** One turn of `LexWithComplete`: the tokenization goes on after the scanner's lexeme. */
  lemma LexWithCompleteStep(mode: NumberSyntax, s: string, scan: nat -> Option<Lexeme>, i: nat, ts: seq<Token>)
    returns (n: nat, rest: seq<Token>)
    requires i < |s| && Advances(s, scan) && FindsLongest(mode, s, scan)
    requires Tokenization(mode, s, i, ts)
    ensures 0 < n && i + n <= |s| && Tokenization(mode, s, i + n, rest)
    ensures LexWith(s, scan, i + n) == Success(rest) ==> LexWith(s, scan, i) == Success(ts)
  {
    TokenizationFromScan(mode, s, scan, i, ts);
    var m := scan(i).value;
    LexWithStep(s, scan, i);
    n := m.len;
    if m.rule == Skip {
      rest := ts;
    } else {
      rest := ts[1..];
      assert [ts[0]] + ts[1..] == ts;
    }
  }

  /**
   * Offset `j` is reached from `i` by a chain of longest matches: stepping
   * from `i` over one longest match after another lands exactly on `j`.
   */
  ghost predicate ChainTo(mode: NumberSyntax, s: string, i: nat, j: nat)
    decreases j - i
  {
    i == j || (i < j && exists r, n | IsLongestMatch(mode, s, i, r, n) && i + n <= j :: ChainTo(mode, s, i + n, j))
  }

  /** A chain that moves on from `i` starts with a match at `i`. */
  lemma ChainLeavesMatch(mode: NumberSyntax, s: string, i: nat, j: nat)
    ensures ChainTo(mode, s, i, j) && i != j ==> !NothingMatches(mode, s, i)
  {
    if ChainTo(mode, s, i, j) && i != j {
      var r, n :| IsLongestMatch(mode, s, i, r, n) && i + n <= j && ChainTo(mode, s, i + n, j);
      assert MatchesAt(mode, r, s, i, n);
    }
  }

  /** A chain that moves on from `i` takes the longest match at `i` as its first step. */
  lemma ChainStepDetermined(mode: NumberSyntax, s: string, i: nat, j: nat, r: Rule, n: nat)
    requires ChainTo(mode, s, i, j) && i != j && IsLongestMatch(mode, s, i, r, n)
    ensures i + n <= j && ChainTo(mode, s, i + n, j)
  {
    var r', n' :| IsLongestMatch(mode, s, i, r', n') && i + n' <= j && ChainTo(mode, s, i + n', j);
    LongestMatchUnique(mode, s, i, r, n, r', n');
  }

  /**
   * The chain of longest matches from `i` gets stuck at most once: two
   * offsets it reaches where nothing matches are the same offset.
   */
  lemma {:induction false} StuckPointUnique(mode: NumberSyntax, s: string, i: nat, j1: nat, j2: nat)
    requires ChainTo(mode, s, i, j1) && NothingMatches(mode, s, j1)
    requires ChainTo(mode, s, i, j2) && NothingMatches(mode, s, j2)
    ensures j1 == j2
    decreases j1 - i
  {
    ChainLeavesMatch(mode, s, i, j1);
    ChainLeavesMatch(mode, s, i, j2);
    if i != j1 && i != j2 {
      var r, n :| IsLongestMatch(mode, s, i, r, n) && i + n <= j1 && ChainTo(mode, s, i + n, j1);
      ChainStepDetermined(mode, s, i, j2, r, n);
      StuckPointUnique(mode, s, i + n, j1, j2);
    }
  }

  /**
   * With a longest-match scanner the loop fails exactly where the chain of
   * longest matches from `i` first reaches an offset where nothing matches.
   */
  lemma {:induction false} LexWithFailure(mode: NumberSyntax, s: string, scan: nat -> Option<Lexeme>, i: nat)
    requires i <= |s| && Advances(s, scan) && FindsLongest(mode, s, scan)
    ensures LexWith(s, scan, i).Failure? ==> NothingMatches(mode, s, LexWith(s, scan, i).error.at)
    ensures LexWith(s, scan, i).Failure? ==> ChainTo(mode, s, i, LexWith(s, scan, i).error.at)
    decreases |s| - i
  {
    if i < |s| {
      assert IsLongestLexeme(mode, s, i, scan(i));
      if scan(i).Some? {
        var m := scan(i).value;
        LexWithFailure(mode, s, scan, i + m.len);
        if LexWith(s, scan, i).Failure? {
          var at := LexWith(s, scan, i).error.at;
          assert LexWith(s, scan, i) == LexWith(s, scan, i + m.len);
          assert IsLongestMatch(mode, s, i, m.rule, m.len) && i + m.len <= at;
        }
      }
    }
  }

  /** The lexer computes exactly the longest-match tokenization. */
  lemma LexIsTokenization(mode: NumberSyntax, s: string, i: nat, ts: seq<Token>)
    requires i <= |s|
    ensures LexFrom(mode, s, i) == Success(ts) <==> Tokenization(mode, s, i, ts)
  {
    ScannerOfFindsLongest(mode, s);
    if LexFrom(mode, s, i) == Success(ts) {
      LexWithSound(mode, s, ScannerOf(mode, s), i);
    }
    if Tokenization(mode, s, i, ts) {
      LexWithComplete(mode, s, ScannerOf(mode, s), i, ts);
    }
  }

  /**
   * The lexer reports an error at the first offset where the chain of
   * longest matches gets stuck: nothing matches there.
   */
  lemma LexFailureIsNoMatch(mode: NumberSyntax, s: string, i: nat)
    requires i <= |s|
    ensures LexFrom(mode, s, i).Failure? ==> i <= LexFrom(mode, s, i).error.at < |s|
    ensures LexFrom(mode, s, i).Failure? ==> NothingMatches(mode, s, LexFrom(mode, s, i).error.at)
    ensures LexFrom(mode, s, i).Failure? ==> ChainTo(mode, s, i, LexFrom(mode, s, i).error.at)
  {
    ScannerOfFindsLongest(mode, s);
    LexWithFailure(mode, s, ScannerOf(mode, s), i);
  }

  /** `LexFrom` at an offset where the scanner finds the lexeme `rule`, `n`. */
  lemma LexFromStep(mode: NumberSyntax, s: string, i: nat, rule: Rule, n: nat)
    requires i < |s| && Scan(mode, s, i) == Some(Lexeme(rule, n))
    ensures IsLongestMatch(mode, s, i, rule, n)
    ensures rule == Skip ==> LexFrom(mode, s, i) == LexFrom(mode, s, i + n)
    ensures rule != Skip ==>
      LexFrom(mode, s, i) ==
      (if LexFrom(mode, s, i + n).Failure? then LexFrom(mode, s, i + n)
       else Success([MakeToken(rule, s[i..i + n])] + LexFrom(mode, s, i + n).value))
  {
    ScanIsLongestMatch(mode, s, i);
  }

  /** Whatever the scanner's dispatch, it finds the unique longest match. */
  lemma ScanFindsLongest(mode: NumberSyntax, s: string, i: nat, r: Rule, n: nat)
    requires i < |s| && IsLongestMatch(mode, s, i, r, n)
    ensures Scan(mode, s, i) == Some(Lexeme(r, n))
  {
    ScanIsLongestMatch(mode, s, i);
    assert MatchesAt(mode, r, s, i, n);
    var m := Scan(mode, s, i).value;
    LongestMatchUnique(mode, s, i, r, n, m.rule, m.len);
  }
}

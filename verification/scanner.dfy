/**
 * One step of the remy lexer: at a given offset, find the rule whose match
 * is longest (maximal munch), as the logos-generated automaton does.
 *
 * `Scan` dispatches on the first character; `ScanIsLongestMatch` proves that
 * the rule and length it picks are the unique longest match among all rules
 * of `Tokens.Matches`, and that it gives up exactly when no rule matches.
 */
module Scanner {
  import opened Wrappers
  import opened Tokens

  /** A rule together with the number of characters it consumed. */
  datatype Lexeme = Lexeme(rule: Rule, len: nat)

  /** Rule `r` matches the `k` characters of `s` from `i` on. */
  ghost predicate MatchesAt(mode: NumberSyntax, r: Rule, s: string, i: nat, k: nat) {
    i + k <= |s| && Matches(mode, r, s[i..i + k])
  }

  /** `r` matches the `n` characters at `i`, no rule matches more, and no other rule matches those `n`. */
  ghost predicate IsLongestMatch(mode: NumberSyntax, s: string, i: nat, r: Rule, n: nat) {
    && 0 < n <= |s| - i
    && MatchesAt(mode, r, s, i, n)
    && (forall r', k | n < k :: !MatchesAt(mode, r', s, i, k))
    && (forall r' | r' != r :: !MatchesAt(mode, r', s, i, n))
  }

  /** No rule matches any non-empty text starting at `i`. */
  ghost predicate NothingMatches(mode: NumberSyntax, s: string, i: nat) {
    forall r, k | 0 < k :: !MatchesAt(mode, r, s, i, k)
  }

  /** Every match at `i` is by rule `r` and at most `n` long. */
  ghost predicate Dominates(mode: NumberSyntax, s: string, i: nat, r: Rule, n: nat) {
    forall r', k | 0 < k && MatchesAt(mode, r', s, i, k) :: r' == r && k <= n
  }

  lemma SliceOfSlice(s: string, a: nat, b: nat, c: nat, d: nat)
    requires a <= b <= |s| && c <= d <= b - a
    ensures s[a..b][c..d] == s[a + c..a + d]
    ensures s[a..b][c..] == s[a + c..b]
  {
    var u, v := s[a..b][c..d], s[a + c..a + d];
    assert |u| == |v| && forall j | 0 <= j < |u| :: u[j] == v[j];
    var u', v' := s[a..b][c..], s[a + c..b];
    assert |u'| == |v'| && forall j | 0 <= j < |u'| :: u'[j] == v'[j];
  }

  lemma DominatingMatchIsLongest(mode: NumberSyntax, s: string, i: nat, r: Rule, n: nat)
    requires 0 < n <= |s| - i && MatchesAt(mode, r, s, i, n)
    requires Dominates(mode, s, i, r, n)
    ensures IsLongestMatch(mode, s, i, r, n)
  {
  }

  /** The length of the longest run of characters satisfying `p` from `i` on. */
  function Run(s: string, i: nat, p: char -> bool): (n: nat)
    requires i <= |s|
    ensures i + n <= |s|
    decreases |s| - i
  {
    if i < |s| && p(s[i]) then 1 + Run(s, i + 1, p) else 0
  }

  /** The run is all `p` and stops at the end of the text or at a character that is not. */
  lemma {:induction false} RunSpec(s: string, i: nat, p: char -> bool)
    requires i <= |s|
    ensures forall j | i <= j < i + Run(s, i, p) :: p(s[j])
    ensures i + Run(s, i, p) == |s| || !p(s[i + Run(s, i, p)])
    decreases |s| - i
  {
    if i < |s| && p(s[i]) {
      RunSpec(s, i + 1, p);
    }
  }

  /** A stretch of `p` characters that cannot be extended is the run. */
  lemma RunExact(s: string, i: nat, p: char -> bool, n: nat)
    requires i + n <= |s| && (forall j | i <= j < i + n :: p(s[j]))
    requires i + n == |s| || !p(s[i + n])
    ensures Run(s, i, p) == n
  {
    RunSpec(s, i, p);
  }

  /** What kind of lexeme can begin with a character. */
  datatype StartClass =
    | Blank
    | Slash
    | ColonStart
    | EqualsStart
    | Single(token: Token)
    | Letter
    | Digit
    | Quote
    | Other

  function Classify(c: char): (k: StartClass)
    ensures k.Single? ==> IsPunct(k.token) && Text(k.token) == [c]
  {
    if IsWs(c) then Blank
    else if c == '/' then Slash
    else if c == ':' then ColonStart
    else if c == '=' then EqualsStart
    else if c == ',' then Single(Comma)
    else if c == ';' then Single(SemiColon)
    else if c == '(' then Single(LParen)
    else if c == ')' then Single(RParen)
    else if c == '[' then Single(LBracket)
    else if c == ']' then Single(RBracket)
    else if c == '!' then Single(Exclamation)
    else if c == '{' then Single(LBrace)
    else if c == '}' then Single(RBrace)
    else if IsIdentStart(c) then Letter
    else if IsDigit(c) then Digit
    else if c == '"' then Quote
    else Other
  }

  /** Which rules can match a text is decided by its first character. */
  lemma MatchShape(mode: NumberSyntax, r: Rule, w: string)
    requires Matches(mode, r, w)
    ensures |w| > 0
    ensures match Classify(w[0])
      case Blank => r == Skip && IsWhitespace(w)
      case Slash => r == Skip && (IsLineComment(w) || IsBlockComment(w))
      case ColonStart => (r == Punct(Colon) && w == ":") || (r == Punct(DoubleColon) && w == "::")
      case EqualsStart => r == Punct(FatArrow) && w == "=>"
      case Single(t) => r == Punct(t) && w == Text(t)
      case Letter => r == IdentRule
      case Digit => r == NumberRule
      case Quote => r == StringRule
      case Other => false
  {
    if r == NumberRule {
      var d :| 1 <= d <= |w| && AllDigits(w[..d]);
      assert w[..d][0] == w[0];
    }
  }

  // ---------------------------------------------------------------- numbers

  /** How many copies of "0-9" follow one another from `p` on. */
  function Repeat09Count(s: string, p: nat): (t: nat)
    requires p <= |s|
    ensures p + 3 * t <= |s|
    decreases |s| - p
  {
    if p + 3 <= |s| && s[p..p + 3] == "0-9" then 1 + Repeat09Count(s, p + 3) else 0
  }

  lemma {:induction false} Repeat09Prefix(s: string, p: nat)
    requires p <= |s| && Repeat09Count(s, p) > 0
    ensures IsRepeated09(s[p..p + 3 * Repeat09Count(s, p)])
    decreases |s| - p
  {
    var t := Repeat09Count(s, p);
    var w := s[p..p + 3 * t];
    assert w[..3] == s[p..p + 3];
    if t > 1 {
      Repeat09Prefix(s, p + 3);
      assert w[3..] == s[p + 3..p + 3 + 3 * Repeat09Count(s, p + 3)];
    }
  }

  lemma {:induction false} Repeat09Bound(s: string, p: nat, len: nat)
    requires p + len <= |s| && IsRepeated09(s[p..p + len])
    ensures 3 <= len <= 3 * Repeat09Count(s, p)
    decreases len
  {
    var w := s[p..p + len];
    assert w[..3] == s[p..p + 3];
    if len > 3 {
      assert w[3..] == s[p + 3..p + len];
      Repeat09Bound(s, p + 3, len - 3);
    }
  }

  /** The length of the `Number` lexeme at `i`, a digit. */
  function NumberLength(mode: NumberSyntax, s: string, i: nat): (n: nat)
    requires i < |s| && IsDigit(s[i])
    ensures 0 < n <= |s| - i
  {
    var d := Run(s, i, IsDigit);
    match mode
    case AsWritten =>
      if i + d < |s| && s[i + d] == '.' && Repeat09Count(s, i + d + 1) > 0
      then d + 1 + 3 * Repeat09Count(s, i + d + 1)
      else d
    case Intended =>
      if i + d + 1 < |s| && s[i + d] == '.' && IsDigit(s[i + d + 1])
      then d + 1 + Run(s, i + d + 1, IsDigit)
      else d
  }

  /** The digit run at `a` is all digits. */
  lemma RunIsDigits(s: string, a: nat)
    requires a <= |s|
    ensures AllDigits(s[a..a + Run(s, a, IsDigit)])
  {
    RunSpec(s, a, IsDigit);
  }

  /** A digit prefix of a `Number` match ends where the digit run ends, or with the match. */
  lemma DigitPrefixIsRun(s: string, i: nat, k: nat, e: nat)
    requires i + k <= |s| && 1 <= e <= k
    requires AllDigits(s[i..i + k][..e])
    requires e == k || s[i + e] == '.'
    ensures e == Run(s, i, IsDigit) || (e == k && k < Run(s, i, IsDigit))
  {
    forall j | i <= j < i + e
      ensures IsDigit(s[j])
    {
      assert s[i..i + k][..e][j - i] == s[j];
    }
    RunSpec(s, i, IsDigit);
  }

  /** Any `Number` match at `i` is the digit run, possibly followed by `.` and a fraction. */
  lemma NumberMatchSplit(mode: NumberSyntax, s: string, i: nat, k: nat)
    requires 0 < k && MatchesAt(mode, NumberRule, s, i, k)
    ensures var d := Run(s, i, IsDigit);
      k <= d || (d + 1 < k && s[i + d] == '.' && IsFraction(mode, s[i + d + 1..i + k]))
  {
    var v := s[i..i + k];
    var e := NumberTextSplit(mode, v);
    DigitPrefixIsRun(s, i, k, e);
    if e < k {
      assert v[e] == s[i + e];
      SliceOfSlice(s, i, i + k, e + 1, k);
    }
  }

  /** The digits-then-fraction split that makes `w` a `Number`. */
  lemma NumberTextSplit(mode: NumberSyntax, w: string) returns (e: nat)
    requires IsNumberText(mode, w)
    ensures 1 <= e <= |w| && AllDigits(w[..e])
    ensures e == |w| || (e + 1 < |w| && w[e] == '.' && IsFraction(mode, w[e + 1..]))
  {
    e :| 1 <= e <= |w| && AllDigits(w[..e]) && (e == |w| || (w[e] == '.' && IsFraction(mode, w[e + 1..])));
    if e < |w| {
      FractionNonEmpty(mode, w[e + 1..]);
    }
  }

  lemma FractionNonEmpty(mode: NumberSyntax, f: string)
    requires IsFraction(mode, f)
    ensures |f| > 0
  {
  }

  /** Digits followed by nothing or by `.` and a fraction make a `Number`. */
  lemma NumberTextJoin(mode: NumberSyntax, w: string, d: nat)
    requires 1 <= d <= |w| && AllDigits(w[..d])
    requires d == |w| || (w[d] == '.' && IsFraction(mode, w[d + 1..]))
    ensures IsNumberText(mode, w)
  {
  }

  /** When `NumberLength` goes past the digit run, what follows is `.` and a fraction. */
  lemma NumberLengthFraction(mode: NumberSyntax, s: string, i: nat)
    requires i < |s| && IsDigit(s[i]) && Run(s, i, IsDigit) < NumberLength(mode, s, i)
    ensures var d, n := Run(s, i, IsDigit), NumberLength(mode, s, i);
      d + 1 < n && s[i + d] == '.' && IsFraction(mode, s[i + d + 1..i + n])
  {
    var d := Run(s, i, IsDigit);
    if mode == AsWritten {
      Repeat09Prefix(s, i + d + 1);
    } else {
      RunIsDigits(s, i + d + 1);
    }
  }

  lemma NumberMatchesItsLength(mode: NumberSyntax, s: string, i: nat)
    requires i < |s| && IsDigit(s[i])
    ensures MatchesAt(mode, NumberRule, s, i, NumberLength(mode, s, i))
  {
    var d, n := Run(s, i, IsDigit), NumberLength(mode, s, i);
    RunPrefix(s, i, n);
    if d < n {
      NumberLengthFraction(mode, s, i);
      FractionAfterRun(mode, s, i, d, n);
    }
    NumberTextJoin(mode, s[i..i + n], d);
  }

  /** The digit run at `i`, read inside a longer stretch from `i`. */
  lemma RunPrefix(s: string, i: nat, n: nat)
    requires i + n <= |s| && Run(s, i, IsDigit) <= n
    ensures AllDigits(s[i..i + n][..Run(s, i, IsDigit)])
  {
    var d := Run(s, i, IsDigit);
    RunIsDigits(s, i);
    assert s[i..i + n][..d] == s[i..i + d];
  }

  lemma FractionAfterRun(mode: NumberSyntax, s: string, i: nat, d: nat, n: nat)
    requires d + 1 < n && i + n <= |s| && s[i + d] == '.' && IsFraction(mode, s[i + d + 1..i + n])
    ensures s[i..i + n][d] == '.' && IsFraction(mode, s[i..i + n][d + 1..])
  {
    SliceOfSlice(s, i, i + n, d + 1, n);
  }

  /** No `Number` match at `i` is longer than `NumberLength`. */
  lemma NumberMatchBound(mode: NumberSyntax, s: string, i: nat, k: nat)
    requires i < |s| && IsDigit(s[i])
    requires 0 < k && MatchesAt(mode, NumberRule, s, i, k)
    ensures k <= NumberLength(mode, s, i)
  {
    var d := Run(s, i, IsDigit);
    NumberMatchSplit(mode, s, i, k);
    if k > d {
      if mode == AsWritten {
        AsWrittenFractionBound(s, i, d, k);
      } else {
        IntendedFractionBound(s, i, d, k);
      }
    }
  }

  lemma AsWrittenFractionBound(s: string, i: nat, d: nat, k: nat)
    requires i < |s| && IsDigit(s[i]) && d == Run(s, i, IsDigit)
    requires d + 1 < k && i + k <= |s| && s[i + d] == '.' && IsRepeated09(s[i + d + 1..i + k])
    ensures k <= NumberLength(AsWritten, s, i)
  {
    Repeat09Bound(s, i + d + 1, k - d - 1);
  }

  lemma IntendedFractionBound(s: string, i: nat, d: nat, k: nat)
    requires i < |s| && IsDigit(s[i]) && d == Run(s, i, IsDigit)
    requires d + 1 < k && i + k <= |s| && s[i + d] == '.' && IsFraction(Intended, s[i + d + 1..i + k])
    ensures k <= NumberLength(Intended, s, i)
  {
    assert s[i + d + 1..i + k][0] == s[i + d + 1];
    DigitsWithinRun(s, i + d + 1, i + k);
  }

  /** A stretch of digits from `a` lies within the digit run at `a`. */
  lemma DigitsWithinRun(s: string, a: nat, b: nat)
    requires a <= b <= |s| && AllDigits(s[a..b])
    ensures b - a <= Run(s, a, IsDigit)
  {
    forall j | a <= j < b
      ensures IsDigit(s[j])
    {
      assert s[a..b][j - a] == s[j];
    }
    RunSpec(s, a, IsDigit);
  }

  lemma NumberLongest(mode: NumberSyntax, s: string, i: nat)
    requires i < |s| && IsDigit(s[i])
    ensures IsLongestMatch(mode, s, i, NumberRule, NumberLength(mode, s, i))
  {
    var n := NumberLength(mode, s, i);
    NumberMatchesItsLength(mode, s, i);
    forall r, k | 0 < k && MatchesAt(mode, r, s, i, k)
      ensures r == NumberRule && k <= n
    {
      var v := s[i..i + k];
      assert v[0] == s[i];
      MatchShape(mode, r, v);
      NumberMatchBound(mode, s, i, k);
    }
    DominatingMatchIsLongest(mode, s, i, NumberRule, n);
  }

  // ---------------------------------------------------------------- strings

  /** Character `j` may stand in a string body that starts at `lo`. */
  predicate BodyCharOk(s: string, lo: nat, j: nat)
    requires lo <= j < |s|
  {
    IsStringChar(s[j]) || (s[j] == '"' && lo < j && s[j - 1] == '\\')
  }

  /** Closed form of `StringItems(s[lo..hi])`: every quote is escaped by the character before it. */
  predicate BodyOkAt(s: string, lo: nat, hi: nat)
    requires lo <= hi <= |s|
  {
    forall j | lo <= j < hi :: BodyCharOk(s, lo, j)
  }

  lemma {:induction false} ItemsClosedForm(s: string, lo: nat, hi: nat)
    requires lo <= hi <= |s|
    ensures StringItems(s[lo..hi]) <==> BodyOkAt(s, lo, hi)
    decreases hi - lo
  {
    if lo < hi {
      var b := s[lo..hi];
      assert b[0] == s[lo];
      assert b[1..] == s[lo + 1..hi];
      ItemsClosedForm(s, lo + 1, hi);
      if hi - lo >= 2 {
        assert b[1] == s[lo + 1];
        assert b[2..] == s[lo + 2..hi];
        ItemsClosedForm(s, lo + 2, hi);
      }
      if BodyOkAt(s, lo, hi) {
        if hi - lo >= 2 && s[lo] == '\\' && s[lo + 1] == '"' {
          var lo2 := lo + 2;
          assert BodyOkAt(s, lo2, hi) by {
            forall j | lo2 <= j < hi ensures BodyCharOk(s, lo2, j) {
              assert BodyCharOk(s, lo, j);
            }
          }
        } else {
          assert BodyCharOk(s, lo, lo);
          var lo1 := lo + 1;
          assert BodyOkAt(s, lo1, hi) by {
            forall j | lo1 <= j < hi ensures BodyCharOk(s, lo1, j) {
              assert BodyCharOk(s, lo, j);
            }
          }
        }
      }
      if StringItems(b) {
        var lo1, lo2 := lo + 1, lo + 2;
        forall j | lo <= j < hi ensures BodyCharOk(s, lo, j) {
          if IsStringChar(s[lo]) && StringItems(b[1..]) {
            if j > lo { assert BodyCharOk(s, lo1, j); }
          } else {
            if j > lo + 1 { assert BodyCharOk(s, lo2, j); }
          }
        }
      }
    }
  }

  /** A string lexeme of length `k` starts at `i` (whose character is a quote). */
  predicate StringEndsAt(s: string, i: nat, k: nat)
    requires i < |s|
  {
    2 <= k <= |s| - i && s[i + k - 1] == '"' && BodyOkAt(s, i + 1, i + k - 1)
  }

  lemma StringTextAt(s: string, i: nat, k: nat)
    requires i < |s| && s[i] == '"' && 0 < k <= |s| - i
    ensures IsStringText(s[i..i + k]) <==> StringEndsAt(s, i, k)
  {
    if k >= 2 {
      var w := s[i..i + k];
      assert |w| == k;
      SliceOfSlice(s, i, i + k, 1, k - 1);
      ItemsClosedForm(s, i + 1, i + k - 1);
    }
  }

  /**
   * Scan a string body from `j` on, `best` being the longest string lexeme
   * found so far (0 if none): a quote closes a candidate lexeme, and the
   * body goes on past it only when it is escaped.
   */
  function StringScan(s: string, i: nat, j: nat, best: nat): (r: nat)
    requires i < j <= |s| && best <= j - i
    ensures best <= r <= |s| - i
    decreases |s| - j
  {
    if j == |s| then best
    else if s[j] == '"' then
      if j > i + 1 && s[j - 1] == '\\' then StringScan(s, i, j + 1, j + 1 - i) else j + 1 - i
    else if IsStringChar(s[j]) then StringScan(s, i, j + 1, best)
    else best
  }

  /** The length of the `NormalString` lexeme at `i`, a quote, or 0 if there is none. */
  function StringLength(s: string, i: nat): (n: nat)
    requires i < |s|
    ensures n <= |s| - i
  {
    StringScan(s, i, i + 1, 0)
  }

  lemma {:induction false} StringScanLongest(s: string, i: nat, j: nat, best: nat)
    requires i < j <= |s| && best <= j - i && s[i] == '"'
    requires BodyOkAt(s, i + 1, j)
    requires best == 0 || StringEndsAt(s, i, best)
    requires forall k | best < k <= j - i :: !StringEndsAt(s, i, k)
    ensures var r := StringScan(s, i, j, best);
      && (r == 0 || StringEndsAt(s, i, r))
      && forall k | r < k <= |s| - i :: !StringEndsAt(s, i, k)
    decreases |s| - j
  {
    if j < |s| {
      if s[j] == '"' {
        if j > i + 1 && s[j - 1] == '\\' {
          assert BodyCharOk(s, i + 1, j);
          assert StringEndsAt(s, i, j + 1 - i);
          StringScanLongest(s, i, j + 1, j + 1 - i);
        } else {
          assert StringEndsAt(s, i, j + 1 - i);
          forall k | j + 1 - i < k <= |s| - i ensures !StringEndsAt(s, i, k) {
            assert !BodyCharOk(s, i + 1, j);
          }
        }
      } else if IsStringChar(s[j]) {
        assert BodyCharOk(s, i + 1, j);
        StringScanLongest(s, i, j + 1, best);
      } else {
        forall k | best < k <= |s| - i ensures !StringEndsAt(s, i, k) {
          if k > j + 1 - i {
            assert !BodyCharOk(s, i + 1, j);
          }
        }
      }
    }
  }

  lemma StringLongest(mode: NumberSyntax, s: string, i: nat)
    requires i < |s| && s[i] == '"'
    ensures StringLength(s, i) > 0 ==> IsLongestMatch(mode, s, i, StringRule, StringLength(s, i))
    ensures StringLength(s, i) == 0 ==> NothingMatches(mode, s, i)
  {
    var n := StringLength(s, i);
    StringScanLongest(s, i, i + 1, 0);
    forall r, k | 0 < k && MatchesAt(mode, r, s, i, k)
      ensures r == StringRule && 0 < n && k <= n
    {
      assert s[i..i + k][0] == s[i];
      MatchShape(mode, r, s[i..i + k]);
      StringTextAt(s, i, k);
    }
    if n > 0 {
      StringTextAt(s, i, n);
      DominatingMatchIsLongest(mode, s, i, StringRule, n);
    }
  }

  // ---------------------------------------------------------------- the step

  /** The longest-matching rule at `i`, or `None` when no rule matches there. */
  function Scan(mode: NumberSyntax, s: string, i: nat): (m: Option<Lexeme>)
    requires i < |s|
    ensures m.Some? ==> 0 < m.value.len <= |s| - i
  {
    match Classify(s[i])
    case Blank => Some(Lexeme(Skip, Run(s, i, IsWs)))
    case Slash =>
      if i + 1 < |s| && s[i + 1] == '/' then
        Some(Lexeme(Skip, 2 + Run(s, i + 2, IsNotNewline)))
      else if i + 1 < |s| && s[i + 1] == '*' then
        var m := Run(s, i + 2, IsBlockBodyChar);
        if i + m + 3 < |s| && s[i + m + 2] == '*' && s[i + m + 3] == '/'
        then Some(Lexeme(Skip, m + 4))
        else None
      else None
    case ColonStart =>
      if i + 1 < |s| && s[i + 1] == ':' then Some(Lexeme(Punct(DoubleColon), 2))
      else Some(Lexeme(Punct(Colon), 1))
    case EqualsStart =>
      if i + 1 < |s| && s[i + 1] == '>' then Some(Lexeme(Punct(FatArrow), 2)) else None
    case Single(t) => Some(Lexeme(Punct(t), 1))
    case Letter => Some(Lexeme(IdentRule, 1 + Run(s, i + 1, IsIdentChar)))
    case Digit => Some(Lexeme(NumberRule, NumberLength(mode, s, i)))
    case Quote =>
      var n := StringLength(s, i);
      if n == 0 then None else Some(Lexeme(StringRule, n))
    case Other => None
  }

  // ---------------------------------------------------------------- soundness of each branch

  lemma BlankLongest(mode: NumberSyntax, s: string, i: nat)
    requires i < |s| && IsWs(s[i])
    ensures IsLongestMatch(mode, s, i, Skip, Run(s, i, IsWs))
  {
    var n := Run(s, i, IsWs);
    RunSpec(s, i, IsWs);
    assert IsWhitespace(s[i..i + n]);
    forall r, k | 0 < k && MatchesAt(mode, r, s, i, k)
      ensures r == Skip && k <= n
    {
      BlankMatchBound(mode, s, i, r, k);
    }
    DominatingMatchIsLongest(mode, s, i, Skip, n);
  }

  lemma BlankMatchBound(mode: NumberSyntax, s: string, i: nat, r: Rule, k: nat)
    requires i < |s| && IsWs(s[i])
    requires 0 < k && MatchesAt(mode, r, s, i, k)
    ensures r == Skip && k <= Run(s, i, IsWs)
  {
    var n := Run(s, i, IsWs);
    RunSpec(s, i, IsWs);
    var w := s[i..i + k];
    assert w[0] == s[i];
    var probe := if n < k then n else 0;
    assert w[probe] == s[i + probe];
    MatchShape(mode, r, w);
  }

  lemma LineCommentLongest(mode: NumberSyntax, s: string, i: nat)
    requires i + 1 < |s| && s[i] == '/' && s[i + 1] == '/'
    ensures IsLongestMatch(mode, s, i, Skip, 2 + Run(s, i + 2, IsNotNewline))
  {
    var n := 2 + Run(s, i + 2, IsNotNewline);
    RunSpec(s, i + 2, IsNotNewline);
    assert IsLineComment(s[i..i + n]);
    forall r, k | 0 < k && MatchesAt(mode, r, s, i, k)
      ensures r == Skip && k <= n
    {
      var w := s[i..i + k];
      assert w[0] == s[i];
      assert k > 1 ==> w[1] == s[i + 1];
      assert k > n ==> w[n] == s[i + n];
      MatchShape(mode, r, w);
    }
    DominatingMatchIsLongest(mode, s, i, Skip, n);
  }

  /** Where the body of a block comment opened at `i` stops. */
  function BlockBodyEnd(s: string, i: nat): nat
    requires i + 2 <= |s|
  {
    i + 2 + Run(s, i + 2, IsBlockBodyChar)
  }

  /** A block comment opened at `i` can only close where its body stops. */
  lemma BlockCommentCloses(mode: NumberSyntax, s: string, i: nat, k: nat)
    requires i + 1 < |s| && s[i] == '/' && s[i + 1] == '*'
    requires 0 < k && MatchesAt(mode, Skip, s, i, k)
    ensures i + k == BlockBodyEnd(s, i) + 2
    ensures s[BlockBodyEnd(s, i)] == '*' && s[BlockBodyEnd(s, i) + 1] == '/'
  {
    RunSpec(s, i + 2, IsBlockBodyChar);
    var e := BlockBodyEnd(s, i);
    var w := s[i..i + k];
    assert w[1] == s[i + 1];
    assert IsBlockComment(w);
    assert w[k - 2] == s[i + k - 2];
    assert w[k - 1] == s[i + k - 1];
    var probe := if e - i < k then e - i else 0;
    assert w[probe] == s[i + probe];
  }

  lemma BlockCommentLongest(mode: NumberSyntax, s: string, i: nat)
    requires i + 1 < |s| && s[i] == '/' && s[i + 1] == '*'
    requires BlockBodyEnd(s, i) + 1 < |s|
    requires s[BlockBodyEnd(s, i)] == '*' && s[BlockBodyEnd(s, i) + 1] == '/'
    ensures IsLongestMatch(mode, s, i, Skip, BlockBodyEnd(s, i) + 2 - i)
  {
    var n := BlockBodyEnd(s, i) + 2 - i;
    RunSpec(s, i + 2, IsBlockBodyChar);
    var w := s[i..i + n];
    assert forall j | 2 <= j < n - 2 :: w[j] == s[i + j];
    assert IsBlockComment(w);
    forall r, k | 0 < k && MatchesAt(mode, r, s, i, k)
      ensures r == Skip && k <= n
    {
      var v := s[i..i + k];
      assert v[0] == s[i];
      assert k > 1 ==> v[1] == s[i + 1];
      MatchShape(mode, r, v);
      BlockCommentCloses(mode, s, i, k);
    }
    DominatingMatchIsLongest(mode, s, i, Skip, n);
  }

  lemma BlockCommentUnclosed(mode: NumberSyntax, s: string, i: nat)
    requires i + 1 < |s| && s[i] == '/' && s[i + 1] == '*'
    requires !(BlockBodyEnd(s, i) + 1 < |s| && s[BlockBodyEnd(s, i)] == '*' && s[BlockBodyEnd(s, i) + 1] == '/')
    ensures NothingMatches(mode, s, i)
  {
    forall r, k | 0 < k && MatchesAt(mode, r, s, i, k)
      ensures false
    {
      var v := s[i..i + k];
      assert v[0] == s[i];
      assert k > 1 ==> v[1] == s[i + 1];
      MatchShape(mode, r, v);
      BlockCommentCloses(mode, s, i, k);
    }
  }

  lemma LoneSlash(mode: NumberSyntax, s: string, i: nat)
    requires i < |s| && s[i] == '/'
    requires !(i + 1 < |s| && (s[i + 1] == '/' || s[i + 1] == '*'))
    ensures NothingMatches(mode, s, i)
  {
    forall r, k | 0 < k && MatchesAt(mode, r, s, i, k)
      ensures false
    {
      var v := s[i..i + k];
      assert v[0] == s[i];
      assert k > 1 ==> v[1] == s[i + 1];
      MatchShape(mode, r, v);
    }
  }

  lemma ColonLongest(mode: NumberSyntax, s: string, i: nat)
    requires i < |s| && s[i] == ':'
    ensures i + 1 < |s| && s[i + 1] == ':' ==> IsLongestMatch(mode, s, i, Punct(DoubleColon), 2)
    ensures !(i + 1 < |s| && s[i + 1] == ':') ==> IsLongestMatch(mode, s, i, Punct(Colon), 1)
  {
    var two := i + 1 < |s| && s[i + 1] == ':';
    forall r, k | 0 < k && MatchesAt(mode, r, s, i, k)
      ensures if two then k <= 2 && (k == 2 ==> r == Punct(DoubleColon)) else r == Punct(Colon) && k == 1
    {
      var v := s[i..i + k];
      assert v[0] == s[i];
      assert k > 1 ==> v[1] == s[i + 1];
      MatchShape(mode, r, v);
    }
    if two {
      assert s[i..i + 2] == "::";
      assert MatchesAt(mode, Punct(DoubleColon), s, i, 2);
    } else {
      assert s[i..i + 1] == ":";
      assert MatchesAt(mode, Punct(Colon), s, i, 1);
    }
  }

  lemma EqualsSign(mode: NumberSyntax, s: string, i: nat)
    requires i < |s| && s[i] == '='
    ensures i + 1 < |s| && s[i + 1] == '>' ==> IsLongestMatch(mode, s, i, Punct(FatArrow), 2)
    ensures !(i + 1 < |s| && s[i + 1] == '>') ==> NothingMatches(mode, s, i)
  {
    var two := i + 1 < |s| && s[i + 1] == '>';
    forall r, k | 0 < k && MatchesAt(mode, r, s, i, k)
      ensures two && r == Punct(FatArrow) && k == 2
    {
      var v := s[i..i + k];
      assert v[0] == s[i];
      assert k > 1 ==> v[1] == s[i + 1];
      MatchShape(mode, r, v);
    }
    if two {
      assert s[i..i + 2] == "=>";
      assert MatchesAt(mode, Punct(FatArrow), s, i, 2);
      DominatingMatchIsLongest(mode, s, i, Punct(FatArrow), 2);
    }
  }

  lemma SingleLongest(mode: NumberSyntax, s: string, i: nat, t: Token)
    requires i < |s| && Classify(s[i]) == Single(t)
    ensures IsLongestMatch(mode, s, i, Punct(t), 1)
  {
    assert s[i..i + 1] == Text(t);
    assert MatchesAt(mode, Punct(t), s, i, 1);
    forall r, k | 0 < k && MatchesAt(mode, r, s, i, k)
      ensures r == Punct(t) && k <= 1
    {
      var v := s[i..i + k];
      assert v[0] == s[i];
      MatchShape(mode, r, v);
    }
    DominatingMatchIsLongest(mode, s, i, Punct(t), 1);
  }

  lemma IdentMatchBound(mode: NumberSyntax, s: string, i: nat, r: Rule, k: nat)
    requires i < |s| && IsIdentStart(s[i])
    requires 0 < k && MatchesAt(mode, r, s, i, k)
    ensures r == IdentRule && k <= 1 + Run(s, i + 1, IsIdentChar)
  {
    var w := s[i..i + k];
    assert w[0] == s[i];
    MatchShape(mode, r, w);
    assert r == IdentRule && IsIdentText(w) by {
      assert Classify(w[0]) == Letter;
    }
    IdentTextWithinRun(s, i, k);
  }

  /** An identifier at `i` ends no later than the identifier-character run after its first character. */
  lemma IdentTextWithinRun(s: string, i: nat, k: nat)
    requires i + k <= |s| && IsIdentText(s[i..i + k])
    ensures k <= 1 + Run(s, i + 1, IsIdentChar)
  {
    RunSpec(s, i + 1, IsIdentChar);
  }

  lemma IdentLongest(mode: NumberSyntax, s: string, i: nat)
    requires i < |s| && IsIdentStart(s[i])
    ensures IsLongestMatch(mode, s, i, IdentRule, 1 + Run(s, i + 1, IsIdentChar))
  {
    var n := 1 + Run(s, i + 1, IsIdentChar);
    RunSpec(s, i + 1, IsIdentChar);
    assert IsIdentText(s[i..i + n]);
    forall r, k | 0 < k && MatchesAt(mode, r, s, i, k)
      ensures r == IdentRule && k <= n
    {
      IdentMatchBound(mode, s, i, r, k);
    }
    DominatingMatchIsLongest(mode, s, i, IdentRule, n);
  }

  lemma OtherMatchesNothing(mode: NumberSyntax, s: string, i: nat)
    requires i < |s| && Classify(s[i]) == Other
    ensures NothingMatches(mode, s, i)
  {
    forall r, k | 0 < k && MatchesAt(mode, r, s, i, k)
      ensures false
    {
      var w := s[i..i + k];
      assert w[0] == s[i];
      MatchShape(mode, r, w);
    }
  }

  /**
   * `Scan` implements maximal munch: what it returns is the unique longest
   * match at `i`, and it returns nothing exactly when no rule matches there.
   */
  lemma ScanIsLongestMatch(mode: NumberSyntax, s: string, i: nat)
    requires i < |s|
    ensures Scan(mode, s, i).Some? ==>
      IsLongestMatch(mode, s, i, Scan(mode, s, i).value.rule, Scan(mode, s, i).value.len)
    ensures Scan(mode, s, i).None? <==> NothingMatches(mode, s, i)
  {
    match Classify(s[i])
    case Blank => BlankLongest(mode, s, i);
    case Slash =>
      if i + 1 < |s| && s[i + 1] == '/' {
        LineCommentLongest(mode, s, i);
      } else if i + 1 < |s| && s[i + 1] == '*' {
        if BlockBodyEnd(s, i) + 1 < |s| && s[BlockBodyEnd(s, i)] == '*' && s[BlockBodyEnd(s, i) + 1] == '/' {
          BlockCommentLongest(mode, s, i);
        } else {
          BlockCommentUnclosed(mode, s, i);
        }
      } else {
        LoneSlash(mode, s, i);
      }
    case ColonStart => ColonLongest(mode, s, i);
    case EqualsStart => EqualsSign(mode, s, i);
    case Single(t) => SingleLongest(mode, s, i, t);
    case Letter => IdentLongest(mode, s, i);
    case Digit => NumberLongest(mode, s, i);
    case Quote => StringLongest(mode, s, i);
    case Other => OtherMatchesNothing(mode, s, i);
  }
}

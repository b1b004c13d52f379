/**
 * Completeness of the remy parser: every node the grammar can produce is
 * parsed back from its printed tokens, consuming exactly those tokens.
 * With the soundness stated by each parser, a file parses to `f` exactly
 * when its tokens are the printed form of `f`.
 */
module RoundTrip {
  import opened Wrappers
  import T = Tokens
  import opened Ast
  import opened Printer
  import opened Parser
  import opened Soundness

  /** The tokens an expression can start with. */
  predicate StartsExpr(t: T.Token) {
    t.Ident? || t == T.LParen || t.NormalString?
  }

  /** Nothing at `q` lets a comma-separated argument list go on. */
  predicate ArgsEnd(toks: seq<T.Token>, q: nat) {
    q >= |toks| || (toks[q] != T.Comma && !toks[q].Ident?)
  }

  /** Nothing at `q` lets a semicolon-separated expression list go on. */
  predicate ExprsEnd(toks: seq<T.Token>, q: nat) {
    q >= |toks| || (toks[q] != T.SemiColon && !StartsExpr(toks[q]))
  }

  lemma NoExprWithoutStart(toks: seq<T.Token>, pos: nat)
    requires pos <= |toks| && (pos == |toks| || !StartsExpr(toks[pos]))
    ensures ParseExpr(toks, pos).None?
  {
    assert ParseIdent(toks, pos).None?;
    assert ParseFunctionLiteral(toks, pos).None?;
    assert ParseStringLiteral(toks, pos).None?;
  }

  /** A non-empty expression list as its first expression and the rest. */
  lemma ExprsUncons(es: seq<Expr>)
    requires ExprsInGrammar(es) && |es| > 0
    ensures ExprInGrammar(es[0]) && ExprsInGrammar(es[1..]) && es == [es[0]] + es[1..]
    ensures PrintExprs(es) == PrintExpr(es[0]) + PrintExprsTail(es[1..])
    ensures PrintExprsTail(es) == [T.SemiColon] + PrintExpr(es[0]) + PrintExprsTail(es[1..])
  {
    var tail := es[1..];
    forall k | 0 <= k < |tail| ensures ExprInGrammar(tail[k]) {
      assert tail[k] == es[k + 1];
    }
  }

  lemma {:induction false} TypeNameRoundTrip(toks: seq<T.Token>, pos: nat, hi: nat, t: TypeName)
    requires Spans(toks, pos, hi, PrintTypeName(t))
    ensures ParseTypeName(toks, pos) == Some(Parsed(t, hi))
    decreases t
  {
    match t
    case Named(n) =>
      SpansHead(toks, pos, hi, PrintTypeName(t));
      assert ParseIdent(toks, pos) == Some(Parsed(n, pos + 1));
    case Slice(e) =>
      SpansEnclosed(toks, pos, hi, T.LBrace, PrintTypeName(e), T.RBrace);
      TypeNameRoundTrip(toks, pos + 1, hi - 1, e);
  }

  lemma AnnotatedRoundTrip(toks: seq<T.Token>, pos: nat, hi: nat, a: AnnotatedIdent)
    requires Spans(toks, pos, hi, PrintAnnotated(a))
    ensures ParseAnnotated(toks, pos) == Some(Parsed(a, hi))
  {
    SpansPrefixed(toks, pos, hi, T.Ident(a.name), PrintTypeName(a.typ));
    assert ParseIdent(toks, pos) == Some(Parsed(a.name, pos + 1));
    TypeNameRoundTrip(toks, pos + 1, hi, a.typ);
  }

  /** A non-empty argument list as its first argument and the rest. */
  lemma ArgsUncons(args: seq<AnnotatedIdent>)
    requires |args| > 0
    ensures args == [args[0]] + args[1..]
    ensures PrintArgs(args) == PrintAnnotated(args[0]) + PrintArgsTail(args[1..])
    ensures PrintArgsTail(args) == [T.Comma] + PrintAnnotated(args[0]) + PrintArgsTail(args[1..])
  {
  }

  lemma {:induction false} ArgsTailRoundTrip(toks: seq<T.Token>, pos: nat, hi: nat, args: seq<AnnotatedIdent>)
    requires Spans(toks, pos, hi, PrintArgsTail(args)) && ArgsEnd(toks, hi)
    ensures ParseArgsTail(toks, pos) == Parsed(args, hi)
    decreases |args|
  {
    if args != [] {
      ArgsUncons(args);
      var pa := PrintAnnotated(args[0]);
      var q := pos + 1 + |pa|;
      SpansSplit(toks, pos, hi, [T.Comma] + pa, PrintArgsTail(args[1..]));
      SpansPrefixed(toks, pos, q, T.Comma, pa);
      AnnotatedRoundTrip(toks, pos + 1, q, args[0]);
      ArgsTailRoundTrip(toks, q, hi, args[1..]);
      ArgsTailStep(toks, pos, args[0], q);
    }
  }

  lemma ArgsTailStep(toks: seq<T.Token>, pos: nat, a: AnnotatedIdent, q: nat)
    requires pos < |toks| && toks[pos] == T.Comma && q <= |toks|
    requires ParseAnnotated(toks, pos + 1) == Some(Parsed(a, q))
    ensures ParseArgsTail(toks, pos) == Parsed([a] + ParseArgsTail(toks, q).value, ParseArgsTail(toks, q).next)
  {
  }

  lemma ArgsRoundTrip(toks: seq<T.Token>, pos: nat, hi: nat, args: seq<AnnotatedIdent>)
    requires Spans(toks, pos, hi, PrintArgs(args)) && ArgsEnd(toks, hi)
    ensures ParseArgs(toks, pos) == Parsed(args, hi)
  {
    if args != [] {
      ArgsUncons(args);
      var pa := PrintAnnotated(args[0]);
      var q := pos + |pa|;
      SpansSplit(toks, pos, hi, pa, PrintArgsTail(args[1..]));
      AnnotatedRoundTrip(toks, pos, q, args[0]);
      ArgsTailRoundTrip(toks, q, hi, args[1..]);
      ArgsStep(toks, pos, args[0], q);
    } else {
      assert ParseIdent(toks, pos).None?;
    }
  }

  lemma ArgsStep(toks: seq<T.Token>, pos: nat, a: AnnotatedIdent, q: nat)
    requires pos <= q <= |toks| && ParseAnnotated(toks, pos) == Some(Parsed(a, q))
    ensures ParseArgs(toks, pos) == Parsed([a] + ParseArgsTail(toks, q).value, ParseArgsTail(toks, q).next)
  {
  }

  lemma {:induction false} LiteralRoundTrip(toks: seq<T.Token>, pos: nat, hi: nat, l: Literal)
    requires LiteralInGrammar(l) && Spans(toks, pos, hi, PrintLiteral(l))
    ensures ParseLiteral(toks, pos) == Some(Parsed(l, hi))
    decreases l, 1
  {
    SpansHead(toks, pos, hi, PrintLiteral(l));
    if l.Function? {
      FunctionLiteralRoundTrip(toks, pos, hi, l);
    }
  }

  lemma {:induction false} FunctionLiteralRoundTrip(toks: seq<T.Token>, pos: nat, hi: nat, l: Literal)
    requires l.Function? && LiteralInGrammar(l) && Spans(toks, pos, hi, PrintLiteral(l))
    ensures ParseFunctionLiteral(toks, pos) == Some(Parsed(l, hi))
    decreases l, 0
  {
    var q := FunctionLiteralPieces(toks, pos, hi, l);
    ArgsRoundTrip(toks, pos + 1, q, l.args);
    BlockRoundTrip(toks, q + 1, hi, l.body);
    FunctionLiteralStep(toks, pos, q, hi, l);
  }

  /** The printed function literal at `pos` split at its closing parenthesis `q`. */
  lemma FunctionLiteralPieces(toks: seq<T.Token>, pos: nat, hi: nat, l: Literal) returns (q: nat)
    requires l.Function? && LiteralInGrammar(l) && Spans(toks, pos, hi, PrintLiteral(l))
    ensures pos < |toks| && toks[pos] == T.LParen && Spans(toks, pos + 1, q, PrintArgs(l.args))
    ensures q < |toks| && toks[q] == T.RParen && ArgsEnd(toks, q)
    ensures ExprsInGrammar(l.body) && Spans(toks, q + 1, hi, [T.LBracket] + PrintExprs(l.body) + [T.RBracket])
  {
    q := pos + 1 + |PrintArgs(l.args)|;
    assert PrintLiteral(l) == FunctionShape(PrintArgs(l.args), PrintExprs(l.body));
    SplitFunctionShape(toks, pos, q, hi, PrintArgs(l.args), PrintExprs(l.body));
  }

  lemma FunctionLiteralStep(toks: seq<T.Token>, pos: nat, q: nat, hi: nat, l: Literal)
    requires l.Function? && pos < |toks| && toks[pos] == T.LParen
    requires ParseArgs(toks, pos + 1) == Parsed(l.args, q)
    requires q < |toks| && toks[q] == T.RParen
    requires ParseBlock(toks, q + 1) == Some(Parsed(l.body, hi))
    ensures ParseFunctionLiteral(toks, pos) == Some(Parsed(l, hi))
  {
  }

  lemma {:induction false} BlockRoundTrip(toks: seq<T.Token>, pos: nat, hi: nat, es: seq<Expr>)
    requires ExprsInGrammar(es) && Spans(toks, pos, hi, [T.LBracket] + PrintExprs(es) + [T.RBracket])
    ensures ParseBlock(toks, pos) == Some(Parsed(es, hi))
    decreases es, 1
  {
    SpansEnclosed(toks, pos, hi, T.LBracket, PrintExprs(es), T.RBracket);
    ExprsRoundTrip(toks, pos + 1, hi - 1, es);
  }

  lemma {:induction false} ExprRoundTrip(toks: seq<T.Token>, pos: nat, hi: nat, e: Expr)
    requires ExprInGrammar(e) && Spans(toks, pos, hi, PrintExpr(e))
    ensures ParseExpr(toks, pos) == Some(Parsed(e, hi))
    decreases e, 0
  {
    SpansHead(toks, pos, hi, PrintExpr(e));
    match e
    case Ident(_) =>
    case Literal(l) =>
      if l.Function? {
        assert PrintLiteral(l)[0] == T.LParen;
      }
      LiteralRoundTrip(toks, pos, hi, l);
  }

  lemma {:induction false} ExprsRoundTrip(toks: seq<T.Token>, pos: nat, hi: nat, es: seq<Expr>)
    requires ExprsInGrammar(es) && Spans(toks, pos, hi, PrintExprs(es)) && ExprsEnd(toks, hi)
    ensures ParseExprs(toks, pos) == Parsed(es, hi)
    decreases es, 0
  {
    if es == [] {
      NoExprWithoutStart(toks, pos);
    } else {
      ExprsUncons(es);
      var p0 := PrintExpr(es[0]);
      var q := pos + |p0|;
      SpansSplit(toks, pos, hi, p0, PrintExprsTail(es[1..]));
      ExprRoundTrip(toks, pos, q, es[0]);
      ExprsTailRoundTrip(toks, q, hi, es[1..]);
      ExprsStep(toks, pos, es[0], q);
    }
  }

  lemma ExprsStep(toks: seq<T.Token>, pos: nat, e: Expr, q: nat)
    requires pos <= q <= |toks| && ParseExpr(toks, pos) == Some(Parsed(e, q))
    ensures ParseExprs(toks, pos) == Parsed([e] + ParseExprsTail(toks, q).value, ParseExprsTail(toks, q).next)
  {
  }

  lemma {:induction false} ExprsTailRoundTrip(toks: seq<T.Token>, pos: nat, hi: nat, es: seq<Expr>)
    requires ExprsInGrammar(es) && Spans(toks, pos, hi, PrintExprsTail(es)) && ExprsEnd(toks, hi)
    ensures ParseExprsTail(toks, pos) == Parsed(es, hi)
    decreases es, 0
  {
    if es != [] {
      ExprsUncons(es);
      var p0 := PrintExpr(es[0]);
      var q := pos + 1 + |p0|;
      SpansSplit(toks, pos, hi, [T.SemiColon] + p0, PrintExprsTail(es[1..]));
      SpansPrefixed(toks, pos, q, T.SemiColon, p0);
      ExprRoundTrip(toks, pos + 1, q, es[0]);
      ExprsTailRoundTrip(toks, q, hi, es[1..]);
      ExprsTailStep(toks, pos, es[0], q);
    }
  }

  lemma ExprsTailStep(toks: seq<T.Token>, pos: nat, e: Expr, q: nat)
    requires pos < |toks| && toks[pos] == T.SemiColon && q <= |toks|
    requires ParseExpr(toks, pos + 1) == Some(Parsed(e, q))
    ensures ParseExprsTail(toks, pos) == Parsed([e] + ParseExprsTail(toks, q).value, ParseExprsTail(toks, q).next)
  {
  }

  lemma DefinitionRoundTrip(toks: seq<T.Token>, pos: nat, hi: nat, d: TopLevelDefinition)
    requires DefinitionInGrammar(d) && Spans(toks, pos, hi, PrintDefinition(d))
    ensures ParseDefinition(toks, pos) == Some(Parsed(d, hi))
  {
    var name := d.lhs.name;
    SpansSplit(toks, pos, hi, [T.Ident(name)] + [T.DoubleColon], PrintLiteral(d.rhs));
    SpansPrefixed(toks, pos, pos + 2, T.Ident(name), [T.DoubleColon]);
    SpansHead(toks, pos + 1, pos + 2, [T.DoubleColon]);
    assert ParseIdent(toks, pos) == Some(Parsed(name, pos + 1));
    LiteralRoundTrip(toks, pos + 2, hi, d.rhs);
  }

  /** A non-empty definition list as its first definition and the rest. */
  lemma DefinitionsUncons(ds: seq<TopLevelDefinition>)
    requires DefinitionsInGrammar(ds) && |ds| > 0
    ensures DefinitionInGrammar(ds[0]) && DefinitionsInGrammar(ds[1..]) && ds == [ds[0]] + ds[1..]
    ensures PrintDefinitions(ds) == PrintDefinition(ds[0]) + PrintDefinitions(ds[1..])
  {
    var tail := ds[1..];
    forall k | 0 <= k < |tail| ensures DefinitionInGrammar(tail[k]) {
      assert tail[k] == ds[k + 1];
    }
  }

  lemma {:induction false} DefinitionsRoundTrip(toks: seq<T.Token>, pos: nat, ds: seq<TopLevelDefinition>)
    requires DefinitionsInGrammar(ds) && Spans(toks, pos, |toks|, PrintDefinitions(ds))
    ensures ParseDefinitions(toks, pos) == Parsed(ds, |toks|)
    decreases |ds|
  {
    if ds != [] {
      DefinitionsUncons(ds);
      var q := pos + |PrintDefinition(ds[0])|;
      SpansSplit(toks, pos, |toks|, PrintDefinition(ds[0]), PrintDefinitions(ds[1..]));
      DefinitionRoundTrip(toks, pos, q, ds[0]);
      DefinitionsRoundTrip(toks, q, ds[1..]);
      DefinitionsStep(toks, pos, ds[0], q);
    } else {
      assert ParseIdent(toks, pos).None?;
    }
  }

  lemma DefinitionsStep(toks: seq<T.Token>, pos: nat, d: TopLevelDefinition, q: nat)
    requires pos <= q <= |toks| && ParseDefinition(toks, pos) == Some(Parsed(d, q))
    ensures ParseDefinitions(toks, pos) == Parsed([d] + ParseDefinitions(toks, q).value, ParseDefinitions(toks, q).next)
  {
  }

  /** Parsing the printed form of a grammar file gives the file back. */
  lemma FileRoundTrip(f: File)
    requires FileInGrammar(f)
    ensures ParseFile(PrintFile(f)) == Some(f)
  {
    var toks := PrintFile(f);
    SpansSuffix(toks, 0, toks);
    DefinitionsRoundTrip(toks, 0, f.definitions);
  }

  /** A token sequence parses to `f` exactly when it is the printed form of a grammar file `f`. */
  lemma ParseFileIff(toks: seq<T.Token>, f: File)
    ensures ParseFile(toks) == Some(f) <==> FileInGrammar(f) && toks == PrintFile(f)
  {
    if FileInGrammar(f) && toks == PrintFile(f) {
      FileRoundTrip(f);
    }
    FileSound(toks);
  }

  /** An empty token sequence is a file with no definitions. */
  lemma EmptyFile()
    ensures ParseFile([]) == Some(File([]))
  {
    FileRoundTrip(File([]));
  }

  /** Distinct grammar files print differently: the parser loses nothing. */
  lemma PrintFileInjective(f: File, g: File)
    requires FileInGrammar(f) && FileInGrammar(g) && PrintFile(f) == PrintFile(g)
    ensures f == g
  {
    FileRoundTrip(f);
    FileRoundTrip(g);
  }
}

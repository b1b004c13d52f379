/**
 * The token sequences the remy grammar derives for each syntax node, and the
 * part of the syntax tree the grammar can produce. This is the reference the
 * parser is proved against: parsing is the inverse of printing.
 */
module Printer {
  import T = Tokens
  import opened Ast

  // ---------------------------------------------------------------- the grammar's image

  /** Expressions the grammar derives: an identifier or a literal. */
  predicate ExprInGrammar(e: Expr)
    decreases e
  {
    match e
    case Ident(_) => true
    case Literal(l) => LiteralInGrammar(l)
    case _ => false
  }

  /** Literals the grammar derives: a string, or a function of grammar expressions. */
  predicate LiteralInGrammar(l: Literal)
    decreases l
  {
    match l
    case String(_) => true
    case Function(_, body) => ExprsInGrammar(body)
    case _ => false
  }

  predicate ExprsInGrammar(es: seq<Expr>)
    decreases es
  {
    forall k | 0 <= k < |es| :: ExprInGrammar(es[k])
  }

  /** Definitions the grammar derives: a binding without type arguments whose value is a grammar literal. */
  predicate DefinitionInGrammar(d: TopLevelDefinition) {
    d.Binding? && d.lhs.typeArgs == [] && LiteralInGrammar(d.rhs)
  }

  predicate DefinitionsInGrammar(ds: seq<TopLevelDefinition>) {
    forall k | 0 <= k < |ds| :: DefinitionInGrammar(ds[k])
  }

  predicate FileInGrammar(f: File) {
    DefinitionsInGrammar(f.definitions)
  }

  // ---------------------------------------------------------------- token spans

  /** The tokens from `lo` to `hi` are exactly `printed`. */
  predicate Spans(toks: seq<T.Token>, lo: nat, hi: nat, printed: seq<T.Token>) {
    lo <= hi <= |toks| && toks[lo..hi] == printed
  }

  lemma SpansConcat(toks: seq<T.Token>, a: nat, b: nat, c: nat, p: seq<T.Token>, q: seq<T.Token>)
    requires Spans(toks, a, b, p) && Spans(toks, b, c, q)
    ensures Spans(toks, a, c, p + q)
  {
    assert toks[a..c] == toks[a..b] + toks[b..c];
  }

  lemma SpansToken(toks: seq<T.Token>, a: nat)
    requires a < |toks|
    ensures Spans(toks, a, a + 1, [toks[a]])
  {
    assert toks[a..a + 1] == [toks[a]];
  }

  lemma SpansSplit(toks: seq<T.Token>, lo: nat, hi: nat, a: seq<T.Token>, b: seq<T.Token>)
    requires Spans(toks, lo, hi, a + b)
    ensures Spans(toks, lo, lo + |a|, a) && Spans(toks, lo + |a|, hi, b)
  {
    assert toks[lo..lo + |a|] == toks[lo..hi][..|a|] == (a + b)[..|a|] == a;
    assert toks[lo + |a|..hi] == toks[lo..hi][|a|..] == (a + b)[|a|..] == b;
  }

  lemma SpansHead(toks: seq<T.Token>, lo: nat, hi: nat, p: seq<T.Token>)
    requires Spans(toks, lo, hi, p) && |p| > 0
    ensures lo < |toks| && toks[lo] == p[0]
  {
    assert toks[lo..hi][0] == toks[lo];
  }

  /** A span that starts with the token `t`. */
  lemma SpansPrefixed(toks: seq<T.Token>, lo: nat, hi: nat, t: T.Token, rest: seq<T.Token>)
    requires Spans(toks, lo, hi, [t] + rest)
    ensures lo < hi && toks[lo] == t && Spans(toks, lo + 1, hi, rest)
  {
    assert ([t] + rest)[1..] == rest;
  }

  /** A span that is `inner` between the tokens `open` and `close`. */
  lemma SpansEnclosed(toks: seq<T.Token>, lo: nat, hi: nat, open: T.Token, inner: seq<T.Token>, close: T.Token)
    requires Spans(toks, lo, hi, [open] + inner + [close])
    ensures lo + 2 <= hi && toks[lo] == open && toks[hi - 1] == close && Spans(toks, lo + 1, hi - 1, inner)
  {
    assert [open] + inner + [close] == [open] + (inner + [close]);
    SpansPrefixed(toks, lo, hi, open, inner + [close]);
    SpansSplit(toks, lo + 1, hi, inner, [close]);
  }

  /** Spanning the whole rest of the sequence is equality with its suffix. */
  lemma SpansSuffix(toks: seq<T.Token>, lo: nat, p: seq<T.Token>)
    requires lo <= |toks|
    ensures Spans(toks, lo, |toks|, p) <==> toks[lo..] == p
  {
    assert toks[lo..|toks|] == toks[lo..];
  }

  /** The tokens of a function literal around its printed arguments and body. */
  function FunctionShape(pa: seq<T.Token>, pe: seq<T.Token>): seq<T.Token> {
    [T.LParen] + pa + [T.RParen] + [T.LBracket] + pe + [T.RBracket]
  }

  lemma SpansFunctionShape(toks: seq<T.Token>, pos: nat, q: nat, hi: nat, pa: seq<T.Token>, pe: seq<T.Token>)
    requires pos < |toks| && toks[pos] == T.LParen && Spans(toks, pos + 1, q, pa)
    requires q < |toks| && toks[q] == T.RParen
    requires Spans(toks, q + 1, hi, [T.LBracket] + pe + [T.RBracket])
    ensures Spans(toks, pos, hi, FunctionShape(pa, pe))
  {
    SpansToken(toks, pos);
    SpansConcat(toks, pos, pos + 1, q, [T.LParen], pa);
    SpansToken(toks, q);
    SpansConcat(toks, pos, q, q + 1, [T.LParen] + pa, [T.RParen]);
    SpansConcat(toks, pos, q + 1, hi, [T.LParen] + pa + [T.RParen], [T.LBracket] + pe + [T.RBracket]);
    assert FunctionShape(pa, pe) == [T.LParen] + pa + [T.RParen] + ([T.LBracket] + pe + [T.RBracket]);
  }

  lemma SplitFunctionShape(toks: seq<T.Token>, pos: nat, q: nat, hi: nat, pa: seq<T.Token>, pe: seq<T.Token>)
    requires Spans(toks, pos, hi, FunctionShape(pa, pe)) && q == pos + 1 + |pa|
    ensures pos < |toks| && toks[pos] == T.LParen && Spans(toks, pos + 1, q, pa)
    ensures q < |toks| && toks[q] == T.RParen
    ensures Spans(toks, q + 1, hi, [T.LBracket] + pe + [T.RBracket])
  {
    var head := [T.LParen] + pa + [T.RParen];
    assert FunctionShape(pa, pe) == head + ([T.LBracket] + pe + [T.RBracket]);
    SpansSplit(toks, pos, hi, head, [T.LBracket] + pe + [T.RBracket]);
    SpansSplit(toks, pos, pos + |head|, [T.LParen] + pa, [T.RParen]);
    SpansSplit(toks, pos, q, [T.LParen], pa);
    SpansHead(toks, pos, pos + 1, [T.LParen]);
    SpansHead(toks, q, pos + |head|, [T.RParen]);
  }

  // ---------------------------------------------------------------- printing

  /** `Ident` for a named type, `{ T }` for a slice. */
  function PrintTypeName(t: TypeName): (ts: seq<T.Token>)
    ensures |ts| > 0
  {
    match t
    case Named(n) => [T.Ident(n)]
    case Slice(e) => [T.LBrace] + PrintTypeName(e) + [T.RBrace]
  }

  /** An identifier immediately followed by its type, with no colon between. */
  function PrintAnnotated(a: AnnotatedIdent): (ts: seq<T.Token>)
    ensures |ts| > 0
  {
    [T.Ident(a.name)] + PrintTypeName(a.typ)
  }

  /** Arguments separated by commas. */
  function PrintArgs(args: seq<AnnotatedIdent>): seq<T.Token> {
    if args == [] then [] else PrintAnnotated(args[0]) + PrintArgsTail(args[1..])
  }

  /** Each argument preceded by its comma. */
  function PrintArgsTail(args: seq<AnnotatedIdent>): seq<T.Token> {
    if args == [] then [] else [T.Comma] + PrintAnnotated(args[0]) + PrintArgsTail(args[1..])
  }

  function PrintLiteral(l: Literal): (ts: seq<T.Token>)
    requires LiteralInGrammar(l)
    ensures |ts| > 0
    decreases l, 0
  {
    match l
    case String(s) => [T.NormalString(s)]
    case Function(args, body) => FunctionShape(PrintArgs(args), PrintExprs(body))
  }

  function PrintExpr(e: Expr): (ts: seq<T.Token>)
    requires ExprInGrammar(e)
    ensures |ts| > 0
    decreases e, 1
  {
    match e
    case Ident(x) => [T.Ident(x)]
    case Literal(l) => PrintLiteral(l)
  }

  /** Expressions separated by semicolons. */
  function PrintExprs(es: seq<Expr>): seq<T.Token>
    requires ExprsInGrammar(es)
    decreases es, 2
  {
    if es == [] then [] else PrintExpr(es[0]) + PrintExprsTail(es[1..])
  }

  /** Each expression preceded by its semicolon. */
  function PrintExprsTail(es: seq<Expr>): seq<T.Token>
    requires ExprsInGrammar(es)
    decreases es, 2
  {
    if es == [] then [] else [T.SemiColon] + PrintExpr(es[0]) + PrintExprsTail(es[1..])
  }

  /** `name :: literal` */
  function PrintDefinition(d: TopLevelDefinition): (ts: seq<T.Token>)
    requires DefinitionInGrammar(d)
    ensures |ts| > 0
  {
    [T.Ident(d.lhs.name)] + [T.DoubleColon] + PrintLiteral(d.rhs)
  }

  /** Definitions one after another, with no separator. */
  function PrintDefinitions(ds: seq<TopLevelDefinition>): seq<T.Token>
    requires DefinitionsInGrammar(ds)
  {
    if ds == [] then [] else PrintDefinition(ds[0]) + PrintDefinitions(ds[1..])
  }

  function PrintFile(f: File): seq<T.Token>
    requires FileInGrammar(f)
  {
    PrintDefinitions(f.definitions)
  }

  // ---------------------------------------------------------------- lists built one item at a time

  lemma ArgsCons(a: AnnotatedIdent, args: seq<AnnotatedIdent>)
    ensures PrintArgs([a] + args) == PrintAnnotated(a) + PrintArgsTail(args)
    ensures PrintArgsTail([a] + args) == [T.Comma] + PrintAnnotated(a) + PrintArgsTail(args)
  {
    assert ([a] + args)[1..] == args;
  }

  lemma ExprsCons(e: Expr, es: seq<Expr>)
    requires ExprInGrammar(e) && ExprsInGrammar(es)
    ensures ExprsInGrammar([e] + es)
    ensures PrintExprs([e] + es) == PrintExpr(e) + PrintExprsTail(es)
    ensures PrintExprsTail([e] + es) == [T.SemiColon] + PrintExpr(e) + PrintExprsTail(es)
  {
    var all := [e] + es;
    assert all[1..] == es;
    forall k | 0 <= k < |all| ensures ExprInGrammar(all[k]) {
      if k > 0 {
        assert all[k] == es[k - 1];
      }
    }
  }

  lemma DefinitionsCons(d: TopLevelDefinition, ds: seq<TopLevelDefinition>)
    requires DefinitionInGrammar(d) && DefinitionsInGrammar(ds)
    ensures DefinitionsInGrammar([d] + ds)
    ensures PrintDefinitions([d] + ds) == PrintDefinition(d) + PrintDefinitions(ds)
  {
    var all := [d] + ds;
    assert all[1..] == ds;
    forall k | 0 <= k < |all| ensures DefinitionInGrammar(all[k]) {
      if k > 0 {
        assert all[k] == ds[k - 1];
      }
    }
  }
}

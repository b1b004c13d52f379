/**
 * Soundness of the remy parser: whatever a parser returns is in the
 * grammar's image, and the tokens it consumed are exactly that node printed.
 * In particular a parsed file is the printed form of its definitions, in
 * source order, with nothing left over.
 */
module Soundness {
  import opened Wrappers
  import T = Tokens
  import opened Ast
  import opened Printer
  import opened Parser

  lemma IdentSound(toks: seq<T.Token>, pos: nat)
    requires pos <= |toks| && ParseIdent(toks, pos).Some?
    ensures Spans(toks, pos, pos + 1, [T.Ident(ParseIdent(toks, pos).value.value)])
  {
    SpansToken(toks, pos);
  }

  lemma {:induction false} TypeNameSound(toks: seq<T.Token>, pos: nat)
    requires pos <= |toks|
    ensures var r := ParseTypeName(toks, pos);
      r.Some? ==> Spans(toks, pos, r.value.next, PrintTypeName(r.value.value))
    decreases |toks| - pos
  {
    var r := ParseTypeName(toks, pos);
    if r.Some? {
      if ParseIdent(toks, pos).Some? {
        IdentSound(toks, pos);
      } else {
        var inner := ParseTypeName(toks, pos + 1).value;
        var q := inner.next;
        TypeNameSound(toks, pos + 1);
        SpansToken(toks, pos);
        SpansConcat(toks, pos, pos + 1, q, [T.LBrace], PrintTypeName(inner.value));
        SpansToken(toks, q);
        SpansConcat(toks, pos, q, q + 1, [T.LBrace] + PrintTypeName(inner.value), [T.RBrace]);
      }
    }
  }

  lemma AnnotatedSound(toks: seq<T.Token>, pos: nat)
    requires pos <= |toks|
    ensures var r := ParseAnnotated(toks, pos);
      r.Some? ==> Spans(toks, pos, r.value.next, PrintAnnotated(r.value.value))
  {
    var r := ParseAnnotated(toks, pos);
    if r.Some? {
      var name := ParseIdent(toks, pos).value.value;
      IdentSound(toks, pos);
      TypeNameSound(toks, pos + 1);
      var typ := ParseTypeName(toks, pos + 1).value;
      SpansConcat(toks, pos, pos + 1, typ.next, [T.Ident(name)], PrintTypeName(typ.value));
    }
  }

  lemma {:induction false} ArgsTailSound(toks: seq<T.Token>, pos: nat)
    requires pos <= |toks|
    ensures var r := ParseArgsTail(toks, pos);
      Spans(toks, pos, r.next, PrintArgsTail(r.value))
    decreases |toks| - pos
  {
    var r := ParseArgsTail(toks, pos);
    if pos < |toks| && toks[pos] == T.Comma && ParseAnnotated(toks, pos + 1).Some? {
      var a := ParseAnnotated(toks, pos + 1).value;
      AnnotatedSound(toks, pos + 1);
      ArgsTailSound(toks, a.next);
      var rest := ParseArgsTail(toks, a.next);
      ArgsTailFromParts(toks, pos, a.next, rest.next, a.value, rest.value);
    }
  }

  lemma ArgsTailFromParts(toks: seq<T.Token>, pos: nat, q: nat, hi: nat, a: AnnotatedIdent, rest: seq<AnnotatedIdent>)
    requires pos < |toks| && toks[pos] == T.Comma && Spans(toks, pos + 1, q, PrintAnnotated(a))
    requires Spans(toks, q, hi, PrintArgsTail(rest))
    ensures Spans(toks, pos, hi, PrintArgsTail([a] + rest))
  {
    SpansToken(toks, pos);
    SpansConcat(toks, pos, pos + 1, q, [T.Comma], PrintAnnotated(a));
    SpansConcat(toks, pos, q, hi, [T.Comma] + PrintAnnotated(a), PrintArgsTail(rest));
    ArgsCons(a, rest);
  }

  lemma ArgsSound(toks: seq<T.Token>, pos: nat)
    requires pos <= |toks|
    ensures var r := ParseArgs(toks, pos);
      Spans(toks, pos, r.next, PrintArgs(r.value))
  {
    if ParseAnnotated(toks, pos).Some? {
      var a := ParseAnnotated(toks, pos).value;
      AnnotatedSound(toks, pos);
      ArgsTailSound(toks, a.next);
      var rest := ParseArgsTail(toks, a.next);
      SpansConcat(toks, pos, a.next, rest.next, PrintAnnotated(a.value), PrintArgsTail(rest.value));
      ArgsCons(a.value, rest.value);
    }
  }

  lemma {:induction false} LiteralSound(toks: seq<T.Token>, pos: nat)
    requires pos <= |toks|
    ensures var r := ParseLiteral(toks, pos);
      r.Some? ==> LiteralInGrammar(r.value.value) && Spans(toks, pos, r.value.next, PrintLiteral(r.value.value))
    decreases |toks| - pos, 2
  {
    if ParseFunctionLiteral(toks, pos).Some? {
      FunctionLiteralSound(toks, pos);
    } else if ParseStringLiteral(toks, pos).Some? {
      SpansToken(toks, pos);
    }
  }

  lemma {:induction false} FunctionLiteralSound(toks: seq<T.Token>, pos: nat)
    requires pos <= |toks|
    ensures var r := ParseFunctionLiteral(toks, pos);
      r.Some? ==> LiteralInGrammar(r.value.value) && Spans(toks, pos, r.value.next, PrintLiteral(r.value.value))
    decreases |toks| - pos, 1
  {
    var r := ParseFunctionLiteral(toks, pos);
    if r.Some? {
      var l, hi := r.value.value, r.value.next;
      var q := FunctionLiteralParts(toks, pos);
      assert Spans(toks, pos + 1, q, PrintArgs(l.args)) by {
        ArgsSound(toks, pos + 1);
      }
      assert ExprsInGrammar(l.body) && Spans(toks, q + 1, hi, [T.LBracket] + PrintExprs(l.body) + [T.RBracket]) by {
        BlockSound(toks, q + 1);
      }
      FunctionLiteralFromParts(toks, pos, q, hi, l);
    }
  }

  lemma FunctionLiteralFromParts(toks: seq<T.Token>, pos: nat, q: nat, hi: nat, l: Literal)
    requires l.Function?
    requires pos < |toks| && toks[pos] == T.LParen && Spans(toks, pos + 1, q, PrintArgs(l.args))
    requires q < |toks| && toks[q] == T.RParen
    requires ExprsInGrammar(l.body) && Spans(toks, q + 1, hi, [T.LBracket] + PrintExprs(l.body) + [T.RBracket])
    ensures LiteralInGrammar(l) && Spans(toks, pos, hi, PrintLiteral(l))
  {
    SpansFunctionShape(toks, pos, q, hi, PrintArgs(l.args), PrintExprs(l.body));
  }

  /** How a successful function literal is put together. */
  lemma FunctionLiteralParts(toks: seq<T.Token>, pos: nat) returns (q: nat)
    requires pos <= |toks| && ParseFunctionLiteral(toks, pos).Some?
    ensures ParseFunctionLiteral(toks, pos).value.value.Function?
    ensures pos < |toks| && toks[pos] == T.LParen
    ensures ParseArgs(toks, pos + 1) == Parsed(ParseFunctionLiteral(toks, pos).value.value.args, q)
    ensures q < |toks| && toks[q] == T.RParen
    ensures ParseBlock(toks, q + 1) == Some(Parsed(ParseFunctionLiteral(toks, pos).value.value.body, ParseFunctionLiteral(toks, pos).value.next))
  {
    q := ParseArgs(toks, pos + 1).next;
  }

  lemma {:induction false} BlockSound(toks: seq<T.Token>, pos: nat)
    requires pos <= |toks|
    ensures var r := ParseBlock(toks, pos);
      r.Some? ==> (ExprsInGrammar(r.value.value)
        && Spans(toks, pos, r.value.next, [T.LBracket] + PrintExprs(r.value.value) + [T.RBracket]))
    decreases |toks| - pos, 0
  {
    if ParseBlock(toks, pos).Some? {
      var es := ParseExprs(toks, pos + 1);
      ExprsSound(toks, pos + 1);
      SpansToken(toks, pos);
      SpansConcat(toks, pos, pos + 1, es.next, [T.LBracket], PrintExprs(es.value));
      SpansToken(toks, es.next);
      SpansConcat(toks, pos, es.next, es.next + 1, [T.LBracket] + PrintExprs(es.value), [T.RBracket]);
    }
  }

  lemma {:induction false} ExprSound(toks: seq<T.Token>, pos: nat)
    requires pos <= |toks|
    ensures var r := ParseExpr(toks, pos);
      r.Some? ==> ExprInGrammar(r.value.value) && Spans(toks, pos, r.value.next, PrintExpr(r.value.value))
    decreases |toks| - pos, 3
  {
    if ParseIdent(toks, pos).Some? {
      IdentSound(toks, pos);
    } else {
      LiteralSound(toks, pos);
    }
  }

  lemma {:induction false} ExprsSound(toks: seq<T.Token>, pos: nat)
    requires pos <= |toks|
    ensures var r := ParseExprs(toks, pos);
      ExprsInGrammar(r.value) && Spans(toks, pos, r.next, PrintExprs(r.value))
    decreases |toks| - pos, 4
  {
    if ParseExpr(toks, pos).Some? {
      var e := ParseExpr(toks, pos).value;
      ExprSound(toks, pos);
      ExprsTailSound(toks, e.next);
      var rest := ParseExprsTail(toks, e.next);
      ExprsFromParts(toks, pos, e.next, rest.next, e.value, rest.value);
    }
  }

  lemma ExprsFromParts(toks: seq<T.Token>, pos: nat, q: nat, hi: nat, e: Expr, rest: seq<Expr>)
    requires ExprInGrammar(e) && Spans(toks, pos, q, PrintExpr(e))
    requires ExprsInGrammar(rest) && Spans(toks, q, hi, PrintExprsTail(rest))
    ensures ExprsInGrammar([e] + rest) && Spans(toks, pos, hi, PrintExprs([e] + rest))
  {
    SpansConcat(toks, pos, q, hi, PrintExpr(e), PrintExprsTail(rest));
    ExprsCons(e, rest);
  }

  lemma {:induction false} ExprsTailSound(toks: seq<T.Token>, pos: nat)
    requires pos <= |toks|
    ensures var r := ParseExprsTail(toks, pos);
      ExprsInGrammar(r.value) && Spans(toks, pos, r.next, PrintExprsTail(r.value))
    decreases |toks| - pos, 4
  {
    if pos < |toks| && toks[pos] == T.SemiColon && ParseExpr(toks, pos + 1).Some? {
      var e := ParseExpr(toks, pos + 1).value;
      ExprSound(toks, pos + 1);
      ExprsTailSound(toks, e.next);
      var rest := ParseExprsTail(toks, e.next);
      ExprsTailFromParts(toks, pos, e.next, rest.next, e.value, rest.value);
    }
  }

  lemma ExprsTailFromParts(toks: seq<T.Token>, pos: nat, q: nat, hi: nat, e: Expr, rest: seq<Expr>)
    requires pos < |toks| && toks[pos] == T.SemiColon
    requires ExprInGrammar(e) && Spans(toks, pos + 1, q, PrintExpr(e))
    requires ExprsInGrammar(rest) && Spans(toks, q, hi, PrintExprsTail(rest))
    ensures ExprsInGrammar([e] + rest) && Spans(toks, pos, hi, PrintExprsTail([e] + rest))
  {
    SpansToken(toks, pos);
    SpansConcat(toks, pos, pos + 1, q, [T.SemiColon], PrintExpr(e));
    SpansConcat(toks, pos, q, hi, [T.SemiColon] + PrintExpr(e), PrintExprsTail(rest));
    ExprsCons(e, rest);
  }

  lemma DefinitionSound(toks: seq<T.Token>, pos: nat)
    requires pos <= |toks|
    ensures var r := ParseDefinition(toks, pos);
      r.Some? ==> DefinitionInGrammar(r.value.value) && Spans(toks, pos, r.value.next, PrintDefinition(r.value.value))
  {
    var r := ParseDefinition(toks, pos);
    if r.Some? {
      var name := ParseIdent(toks, pos).value.value;
      var l := ParseLiteral(toks, pos + 2).value;
      IdentSound(toks, pos);
      SpansToken(toks, pos + 1);
      SpansConcat(toks, pos, pos + 1, pos + 2, [T.Ident(name)], [T.DoubleColon]);
      LiteralSound(toks, pos + 2);
      SpansConcat(toks, pos, pos + 2, l.next, [T.Ident(name)] + [T.DoubleColon], PrintLiteral(l.value));
    }
  }

  lemma {:induction false} DefinitionsSound(toks: seq<T.Token>, pos: nat)
    requires pos <= |toks|
    ensures var r := ParseDefinitions(toks, pos);
      DefinitionsInGrammar(r.value) && Spans(toks, pos, r.next, PrintDefinitions(r.value))
    decreases |toks| - pos
  {
    if ParseDefinition(toks, pos).Some? {
      var d := ParseDefinition(toks, pos).value;
      DefinitionSound(toks, pos);
      DefinitionsSound(toks, d.next);
      var rest := ParseDefinitions(toks, d.next);
      DefinitionsFromParts(toks, pos, d.next, rest.next, d.value, rest.value);
    }
  }

  lemma DefinitionsFromParts(toks: seq<T.Token>, pos: nat, q: nat, hi: nat, d: TopLevelDefinition, rest: seq<TopLevelDefinition>)
    requires DefinitionInGrammar(d) && Spans(toks, pos, q, PrintDefinition(d))
    requires DefinitionsInGrammar(rest) && Spans(toks, q, hi, PrintDefinitions(rest))
    ensures DefinitionsInGrammar([d] + rest) && Spans(toks, pos, hi, PrintDefinitions([d] + rest))
  {
    SpansConcat(toks, pos, q, hi, PrintDefinition(d), PrintDefinitions(rest));
    DefinitionsCons(d, rest);
  }

  /** A parsed file is in the grammar and its tokens are exactly its printed form. */
  lemma FileSound(toks: seq<T.Token>)
    ensures ParseFile(toks).Some? ==> FileInGrammar(ParseFile(toks).value) && toks == PrintFile(ParseFile(toks).value)
  {
    DefinitionsSound(toks, 0);
    if ParseFile(toks).Some? {
      SpansSuffix(toks, 0, PrintDefinitions(ParseDefinitions(toks, 0).value));
      assert toks[0..] == toks;
    }
  }
}

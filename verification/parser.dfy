/**
 * The remy grammar as recursive descent over a token sequence with a
 * position, following the combinators it is written with: `choice` tries its
 * alternatives in order, `separated_by` and `repeated` stop (and rewind to
 * before the separator or the failed item) at the first item that does not
 * parse, and `delimited_by` demands both delimiters.
 *
 * Every parser that succeeds moves strictly forward (list parsers may consume
 * nothing), which is what makes the mutual recursion terminate. What the
 * parsers consume is stated in module `Soundness`; that they accept every
 * printed tree, in module `RoundTrip`.
 */
module Parser {
  import opened Wrappers
  import T = Tokens
  import opened Ast

  /** A parsed value and the position just after it. */
  datatype Parsed<+V> = Parsed(value: V, next: nat)

  /** The single token at `pos`, when it is some `Ident`. */
  function ParseIdent(toks: seq<T.Token>, pos: nat): (r: Option<Parsed<Ident>>)
    requires pos <= |toks|
    ensures r.Some? <==> pos < |toks| && toks[pos].Ident?
    ensures r.Some? ==> r.value.next == pos + 1 && toks[pos] == T.Ident(r.value.value)
  {
    if pos < |toks| && toks[pos].Ident? then Some(Parsed(toks[pos].text, pos + 1)) else None
  }

  /** `Ident` as `Named`, or else `{ TypeName }` as `Slice`. */
  function ParseTypeName(toks: seq<T.Token>, pos: nat): (r: Option<Parsed<TypeName>>)
    requires pos <= |toks|
    ensures r.Some? ==> pos < r.value.next <= |toks|
    decreases |toks| - pos
  {
    match ParseIdent(toks, pos)
    case Some(Parsed(name, p)) => Some(Parsed(Named(name), p))
    case None =>
      if pos < |toks| && toks[pos] == T.LBrace then
        match ParseTypeName(toks, pos + 1)
        case None => None
        case Some(Parsed(inner, q)) =>
          if q < |toks| && toks[q] == T.RBrace then Some(Parsed(Slice(inner), q + 1)) else None
      else None
  }

  /** An identifier directly followed by a type name. */
  function ParseAnnotated(toks: seq<T.Token>, pos: nat): (r: Option<Parsed<AnnotatedIdent>>)
    requires pos <= |toks|
    ensures r.Some? ==> pos < r.value.next <= |toks|
  {
    match ParseIdent(toks, pos)
    case None => None
    case Some(Parsed(name, p)) =>
      match ParseTypeName(toks, p)
      case None => None
      case Some(Parsed(typ, q)) => Some(Parsed(AnnotatedIdent(name, typ), q))
  }

  /** Zero or more annotated identifiers separated by commas. */
  function ParseArgs(toks: seq<T.Token>, pos: nat): (r: Parsed<seq<AnnotatedIdent>>)
    requires pos <= |toks|
    ensures pos <= r.next <= |toks|
  {
    match ParseAnnotated(toks, pos)
    case None => Parsed([], pos)
    case Some(Parsed(a, p)) =>
      var rest := ParseArgsTail(toks, p);
      Parsed([a] + rest.value, rest.next)
  }

  /** Further `, AnnotatedIdent` items; a comma not followed by an item is left unconsumed. */
  function ParseArgsTail(toks: seq<T.Token>, pos: nat): (r: Parsed<seq<AnnotatedIdent>>)
    requires pos <= |toks|
    ensures pos <= r.next <= |toks|
    decreases |toks| - pos
  {
    if pos < |toks| && toks[pos] == T.Comma then
      match ParseAnnotated(toks, pos + 1)
      case None => Parsed([], pos)
      case Some(Parsed(a, p)) =>
        var rest := ParseArgsTail(toks, p);
        Parsed([a] + rest.value, rest.next)
    else Parsed([], pos)
  }

  /** A string literal: the token's text, quotes and all. */
  function ParseStringLiteral(toks: seq<T.Token>, pos: nat): (r: Option<Parsed<Literal>>)
    requires pos <= |toks|
    ensures r.Some? <==> pos < |toks| && toks[pos].NormalString?
    ensures r.Some? ==> r.value.next == pos + 1 && r.value.value.String?
    ensures r.Some? ==> toks[pos] == T.NormalString(r.value.value.text)
  {
    if pos < |toks| && toks[pos].NormalString? then Some(Parsed(String(toks[pos].text), pos + 1)) else None
  }

  /** A function literal, or else a string literal. */
  function ParseLiteral(toks: seq<T.Token>, pos: nat): (r: Option<Parsed<Literal>>)
    requires pos <= |toks|
    ensures r.Some? ==> pos < r.value.next <= |toks|
    decreases |toks| - pos, 2
  {
    match ParseFunctionLiteral(toks, pos)
    case Some(p) => Some(p)
    case None => ParseStringLiteral(toks, pos)
  }

  /** `( args ) [ body ]` */
  function ParseFunctionLiteral(toks: seq<T.Token>, pos: nat): (r: Option<Parsed<Literal>>)
    requires pos <= |toks|
    ensures r.Some? ==> pos < r.value.next <= |toks| && r.value.value.Function?
    decreases |toks| - pos, 1
  {
    if pos < |toks| && toks[pos] == T.LParen then
      var args := ParseArgs(toks, pos + 1);
      if args.next < |toks| && toks[args.next] == T.RParen then
        match ParseBlock(toks, args.next + 1)
        case None => None
        case Some(Parsed(body, q)) => Some(Parsed(Function(args.value, body), q))
      else None
    else None
  }

  /** `[ expr; ...; expr ]`, the body of a function literal. */
  function ParseBlock(toks: seq<T.Token>, pos: nat): (r: Option<Parsed<seq<Expr>>>)
    requires pos <= |toks|
    ensures r.Some? ==> pos < r.value.next <= |toks|
    decreases |toks| - pos, 0
  {
    if pos < |toks| && toks[pos] == T.LBracket then
      var es := ParseExprs(toks, pos + 1);
      if es.next < |toks| && toks[es.next] == T.RBracket then Some(Parsed(es.value, es.next + 1))
      else None
    else None
  }

  /** An identifier, or else a literal. */
  function ParseExpr(toks: seq<T.Token>, pos: nat): (r: Option<Parsed<Expr>>)
    requires pos <= |toks|
    ensures r.Some? ==> pos < r.value.next <= |toks|
    decreases |toks| - pos, 3
  {
    match ParseIdent(toks, pos)
    case Some(Parsed(x, p)) => Some(Parsed(Expr.Ident(x), p))
    case None =>
      match ParseLiteral(toks, pos)
      case None => None
      case Some(Parsed(l, p)) => Some(Parsed(Expr.Literal(l), p))
  }

  /** Zero or more expressions separated by semicolons. */
  function ParseExprs(toks: seq<T.Token>, pos: nat): (r: Parsed<seq<Expr>>)
    requires pos <= |toks|
    ensures pos <= r.next <= |toks|
    decreases |toks| - pos, 4
  {
    match ParseExpr(toks, pos)
    case None => Parsed([], pos)
    case Some(Parsed(e, p)) =>
      var rest := ParseExprsTail(toks, p);
      Parsed([e] + rest.value, rest.next)
  }

  /** Further `; Expr` items; a semicolon not followed by an expression is left unconsumed. */
  function ParseExprsTail(toks: seq<T.Token>, pos: nat): (r: Parsed<seq<Expr>>)
    requires pos <= |toks|
    ensures pos <= r.next <= |toks|
    decreases |toks| - pos, 4
  {
    if pos < |toks| && toks[pos] == T.SemiColon then
      match ParseExpr(toks, pos + 1)
      case None => Parsed([], pos)
      case Some(Parsed(e, p)) =>
        var rest := ParseExprsTail(toks, p);
        Parsed([e] + rest.value, rest.next)
    else Parsed([], pos)
  }

  /**
   * `name :: literal`, built as a binding whose left-hand side is the name
   * with no type arguments.
   */
  function ParseDefinition(toks: seq<T.Token>, pos: nat): (r: Option<Parsed<TopLevelDefinition>>)
    requires pos <= |toks|
    ensures r.Some? ==> pos < r.value.next <= |toks|
    ensures r.Some? ==> r.value.value.Binding? && r.value.value.lhs.typeArgs == []
  {
    match ParseIdent(toks, pos)
    case None => None
    case Some(Parsed(name, p)) =>
      if p < |toks| && toks[p] == T.DoubleColon then
        match ParseLiteral(toks, p + 1)
        case None => None
        case Some(Parsed(l, q)) => Some(Parsed(TopLevelDefinition.Binding(BindingLeftHand(name, []), l), q))
      else None
  }

  /** Definitions repeated for as long as one parses. */
  function ParseDefinitions(toks: seq<T.Token>, pos: nat): (r: Parsed<seq<TopLevelDefinition>>)
    requires pos <= |toks|
    ensures pos <= r.next <= |toks|
    decreases |toks| - pos
  {
    match ParseDefinition(toks, pos)
    case None => Parsed([], pos)
    case Some(Parsed(d, p)) =>
      var rest := ParseDefinitions(toks, p);
      Parsed([d] + rest.value, rest.next)
  }

  /** A file: the definitions, which must reach the end of the tokens. */
  function ParseFile(toks: seq<T.Token>): (r: Option<File>)
    ensures r.Some? <==> ParseDefinitions(toks, 0).next == |toks|
  {
    var defs := ParseDefinitions(toks, 0);
    if defs.next == |toks| then Some(File(defs.value)) else None
  }
}

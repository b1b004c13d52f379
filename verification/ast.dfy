/**
 * The syntax tree of a remy file. Every node is an immutable value, so
 * equality is structural and every tree is finite.
 */
module Ast {
  /** Identifiers are plain text. */
  type Ident = string

  /** A 64-bit signed integer. */
  newtype I64 = x: int | -0x8000_0000_0000_0000 <= x < 0x8000_0000_0000_0000

  /** A source file: its definitions in source order. */
  datatype File = File(definitions: seq<TopLevelDefinition>)

  datatype TopLevelDefinition =
    | Binding(lhs: BindingLeftHand, rhs: Literal)
    | Extern(lhs: BindingLeftHand, externName: Ident)

  /** The name being defined, with its ordered type arguments. */
  datatype BindingLeftHand = BindingLeftHand(name: Ident, typeArgs: seq<TypeName>)

  datatype Literal =
    | String(text: string)
    | Int(intValue: I64)
    | Bool(boolValue: bool)
    | Function(args: seq<AnnotatedIdent>, body: seq<Expr>)

  datatype Expr =
    | FunctionCall(callee: Expr, callArgs: seq<Expr>)
    | Literal(literal: Literal)
    | Ident(ident: Ident)
    | BinaryOp(op: BinaryOperator, left: Expr, right: Expr)
    | Match(target: Expr, conditions: seq<(Literal, Expr)>)
    | Binding(boundName: Ident, value: Expr)

  datatype BinaryOperator = Add | Multiply | Divide | Subtract

  datatype TypeName = Named(typeName: Ident) | Slice(element: TypeName)

  datatype AnnotatedIdent = AnnotatedIdent(name: Ident, typ: TypeName)

  // ---------------------------------------------------------------- type names

  /** How many `Slice` wrappers surround the named type. */
  function Depth(t: TypeName): nat {
    match t
    case Named(_) => 0
    case Slice(e) => 1 + Depth(e)
  }

  /** The identifier at the core of a type name. */
  function Base(t: TypeName): Ident {
    match t
    case Named(n) => n
    case Slice(e) => Base(e)
  }

  /** `n` `Slice` wrappers around `t`. */
  function Wrap(n: nat, t: TypeName): (w: TypeName)
    ensures n > 0 ==> w.Slice?
  {
    if n == 0 then t else Slice(Wrap(n - 1, t))
  }

  /** Every type name is some number of `Slice` wrappers around exactly one `Named` identifier. */
  lemma {:induction false} TypeNameNormalForm(t: TypeName)
    ensures t == Wrap(Depth(t), Named(Base(t)))
  {
    match t
    case Named(_) =>
    case Slice(e) => TypeNameNormalForm(e);
  }

  /** ... and that decomposition is unique. */
  lemma {:induction false} WrapDecomposes(n: nat, x: Ident)
    ensures Depth(Wrap(n, Named(x))) == n && Base(Wrap(n, Named(x))) == x
  {
    if n > 0 {
      WrapDecomposes(n - 1, x);
    }
  }
}

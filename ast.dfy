/** Expression trees as the expression parser builds them and the constant
    folding pass rewrites them (the Expression subclasses under
    src/java/me/pavlina/alco/ast/). */
module Ast {
  import opened Token

  datatype Expr =
    | IntValue(value: int)
    | RealValue(text: string)
    | BoolValue(b: bool)
    | NullValue
    | NameValue(name: string)
    /** `new T`, with the type written as its name. */
    | NewValue(typeName: string)
    /** The type operand of `as`. */
    | TypeValue(typeName: string)
    /** An array literal `{ ... }`, kept as its tokens. */
    | ArrayValue(tokens: seq<Token>)
    /** A prefix operator (OpNeg, OpDeref, OpLNot, ...), by its text. */
    | UnaryOp(op: string, operand: Expr)
    /** A binary operator other than the comma (OpPlus, OpAssign, OpCast, ...). */
    | BinaryOp(op: string, left: Expr, right: Expr)
    /** OpComma with its two children. */
    | Tuple(left: Expr, right: Expr)
    /** OpComma created as the placeholder for an empty argument list; its
        children are null. */
    | EmptyTuple
    | Call(callee: Expr, args: Expr)
    | Index(base: Expr, index: Expr)
    /** An OpeningParen (square false) or OpeningSquare sentinel that ended up
        on the output stack. */
    | Sentinel(square: bool)
  {
    /** Whether this node is an OpComma instance. */
    predicate IsComma() { Tuple? || EmptyTuple? }
  }

  /** The tree the passes walk: statements, which only hold children, and
      expressions. */
  datatype Node = Statement(children: seq<Node>) | ExprNode(expr: Expr)
}

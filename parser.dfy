/**
 * The expression tree the interpreter walks. Only the node shapes are
 * modelled: the recursive-descent grammar functions that would build these
 * trees are not written in the system yet.
 */
module Parser {
  import opened Token

  /** An expression node. `Grouping`, `Unary` and `Binary` are the variants the
      interpreter's visitors match on; `LiteralExpr` is the leaf without which
      no tree could be built. Each node owns its children. */
  datatype Expr =
    | LiteralExpr(value: Literal)
    | Grouping(expression: Expr)
    | Unary(operator: Token, right: Expr)
    | Binary(left: Expr, operator: Token, right: Expr)
}

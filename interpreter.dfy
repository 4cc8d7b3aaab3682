/**
 * The interpreter's value rules: the truthiness rule and the visitors for
 * grouping, unary and binary expressions.
 *
 * Two collaborators are not written in the system and stay abstract here:
 * `evaluate`, which reduces a sub-expression to a value, and the operator
 * implementations on `Literal` (negation, logical not, arithmetic, ordering
 * and equality). Both are fields of `Interpreter`, so every property below
 * holds for whatever they turn out to be.
 */
module Interpreter {
  import opened Token
  import opened Parser

  /** The `Literal` operator implementations the visitors call. The arithmetic
      and unary ones return a `Literal`; ordering and equality return a `bool`,
      which the visitor wraps as `Literal::Boolean`. */
  datatype LiteralOps = LiteralOps(
    neg: Literal -> Literal,
    not: Literal -> Literal,
    add: (Literal, Literal) -> Literal,
    sub: (Literal, Literal) -> Literal,
    div: (Literal, Literal) -> Literal,
    mul: (Literal, Literal) -> Literal,
    gt: (Literal, Literal) -> bool,
    ge: (Literal, Literal) -> bool,
    lt: (Literal, Literal) -> bool,
    le: (Literal, Literal) -> bool,
    ne: (Literal, Literal) -> bool,
    eq: (Literal, Literal) -> bool)

  /** The interpreter holds no state of its own: only the evaluator it
      delegates sub-expressions to and the operator implementations. */
  datatype Interpreter = Interpreter(evaluate: Expr -> Literal, ops: LiteralOps)

  // ---------------------------------------------------------------- truthiness

  /** The Lox rule: `nil` and `false` are falsy, every other value is truthy. */
  predicate Falsy(v: Literal)
  {
    v == Nil || v == Boolean(false)
  }

  /** Truthiness as a `Literal`: always a `Boolean`, true exactly for truthy values. */
  function IsTruthy(literal: Literal): (r: Literal)
    ensures r.Boolean?
    ensures r.b <==> !Falsy(literal)
  {
    match literal
    case Nil => Boolean(false)
    case Boolean(_) => literal
    case _ => Boolean(true)
  }

  /** Booleans pass through unchanged, so truthiness is idempotent. */
  lemma IsTruthyFixesBooleans(v: Literal)
    ensures v.Boolean? <==> IsTruthy(v) == v
    ensures IsTruthy(IsTruthy(v)) == IsTruthy(v)
  {
  }

  /** No number or string is falsy: not zero, not the empty string. */
  lemma NumbersAndStringsAreTruthy(x: F64, s: string)
    ensures IsTruthy(Number(x)) == Boolean(true)
    ensures IsTruthy(String(s)) == Boolean(true)
  {
  }

  // ------------------------------------------------------------ unary dispatch

  /** The operations a prefix operator can select. */
  datatype UnaryOp = Neg | Not

  /** The operator token types the unary visitor accepts. */
  predicate IsUnaryOperator(t: TokenType)
  {
    t == Minus || t == Bang
  }

  /** The meaning of a prefix operation on an operand value: `-` is the abstract
      negation, `!` the abstract logical not of the operand's truthiness. */
  function ApplyUnary(ops: LiteralOps, op: UnaryOp, operand: Literal): Literal
  {
    match op
    case Neg => ops.neg(operand)
    case Not => ops.not(Boolean(!Falsy(operand)))
  }

  /** The operation a unary operator token selects. */
  function UnaryOpOf(t: TokenType): (op: UnaryOp)
    requires IsUnaryOperator(t)
    ensures op == Neg <==> t == Minus
    ensures op == Not <==> t == Bang
  {
    if t == Minus then Neg else Not
  }

  /** Evaluates the operand and applies the operation its operator selects. */
  function VisitUnaryExpr(it: Interpreter, expr: Expr): (r: Literal)
    requires expr.Unary?
    requires IsUnaryOperator(expr.operator.tokenType)
    ensures r == ApplyUnary(it.ops, UnaryOpOf(expr.operator.tokenType), it.evaluate(expr.right))
  {
    var right := it.evaluate(expr.right);
    match expr.operator.tokenType
    case Minus => it.ops.neg(right)
    case Bang => it.ops.not(IsTruthy(right))
  }

  /** `Not` behaves as boolean negation on booleans. */
  ghost predicate NegatesBooleans(ops: LiteralOps)
  {
    forall b: bool :: ops.not(Boolean(b)) == Boolean(!b)
  }

  /** With a `Not` that negates booleans, `!e` is `true` exactly when `e` is falsy. */
  lemma BangIsFalsiness(it: Interpreter, expr: Expr)
    requires expr.Unary? && expr.operator.tokenType == Bang
    requires NegatesBooleans(it.ops)
    ensures VisitUnaryExpr(it, expr) == Boolean(Falsy(it.evaluate(expr.right)))
  {
  }

  // ----------------------------------------------------------- binary dispatch

  /** The operations an infix operator can select. */
  datatype BinaryOp = Add | Sub | Div | Mul | Gt | Ge | Lt | Le | Ne | Eq

  /** The operator token types the binary visitor accepts. */
  predicate IsBinaryOperator(t: TokenType)
  {
    t in {Plus, Minus, Slash, Star, Greater, GreaterEqual, Less, LessEqual, BangEqual, EqualEqual}
  }

  /** The operator token that selects each operation. */
  function OperatorToken(op: BinaryOp): (t: TokenType)
    ensures IsBinaryOperator(t)
  {
    match op
    case Add => Plus
    case Sub => Minus
    case Div => Slash
    case Mul => Star
    case Gt => Greater
    case Ge => GreaterEqual
    case Lt => Less
    case Le => LessEqual
    case Ne => BangEqual
    case Eq => EqualEqual
  }

  /** The operation an accepted operator token selects: the unique one whose
      operator token it is. */
  function BinaryOpOf(t: TokenType): (op: BinaryOp)
    requires IsBinaryOperator(t)
    ensures OperatorToken(op) == t
  {
    match t
    case Plus => Add
    case Minus => Sub
    case Slash => Div
    case Star => Mul
    case Greater => Gt
    case GreaterEqual => Ge
    case Less => Lt
    case LessEqual => Le
    case BangEqual => Ne
    case EqualEqual => Eq
  }

  /** Each accepted operator type selects exactly one operation, and each
      operation is selected by exactly one operator type. */
  lemma BinaryDispatchIsBijective(t: TokenType, op: BinaryOp)
    requires IsBinaryOperator(t)
    ensures BinaryOpOf(t) == op <==> OperatorToken(op) == t
  {
  }

  /** The meaning of an infix operation on two operand values. */
  function Combine(ops: LiteralOps, op: BinaryOp, left: Literal, right: Literal): Literal
  {
    match op
    case Add => ops.add(left, right)
    case Sub => ops.sub(left, right)
    case Div => ops.div(left, right)
    case Mul => ops.mul(left, right)
    case Gt => Boolean(ops.gt(left, right))
    case Ge => Boolean(ops.ge(left, right))
    case Lt => Boolean(ops.lt(left, right))
    case Le => Boolean(ops.le(left, right))
    case Ne => Boolean(ops.ne(left, right))
    case Eq => Boolean(ops.eq(left, right))
  }

  /** The comparison and equality operations. */
  predicate IsComparison(op: BinaryOp)
  {
    op in {Gt, Ge, Lt, Le, Ne, Eq}
  }

  /** Evaluates `left`, then `right`, and combines the two values with the
      operation the operator selects. */
  function VisitBinaryExpr(it: Interpreter, expr: Expr): (r: Literal)
    requires expr.Binary?
    requires IsBinaryOperator(expr.operator.tokenType)
    ensures r == Combine(it.ops, BinaryOpOf(expr.operator.tokenType), it.evaluate(expr.left), it.evaluate(expr.right))
    ensures IsComparison(BinaryOpOf(expr.operator.tokenType)) ==> r.Boolean?
  {
    var left := it.evaluate(expr.left);
    var right := it.evaluate(expr.right);
    match expr.operator.tokenType
    case Plus => it.ops.add(left, right)
    case Minus => it.ops.sub(left, right)
    case Slash => it.ops.div(left, right)
    case Star => it.ops.mul(left, right)
    case Greater => Boolean(it.ops.gt(left, right))
    case GreaterEqual => Boolean(it.ops.ge(left, right))
    case Less => Boolean(it.ops.lt(left, right))
    case LessEqual => Boolean(it.ops.le(left, right))
    case BangEqual => Boolean(it.ops.ne(left, right))
    case EqualEqual => Boolean(it.ops.eq(left, right))
  }

  /** The two interpreters implement operation `op` identically. */
  ghost predicate AgreeOn(a: LiteralOps, b: LiteralOps, op: BinaryOp)
  {
    forall x: Literal, y: Literal :: Combine(a, op, x, y) == Combine(b, op, x, y)
  }

  /** The binary visitor sees its operands only through their values and the
      selected operation: interpreters that agree on those agree on the result,
      whatever they do with every other expression and operation. */
  lemma BinaryDependsOnlyOnOperands(it1: Interpreter, it2: Interpreter, expr: Expr)
    requires expr.Binary? && IsBinaryOperator(expr.operator.tokenType)
    requires it1.evaluate(expr.left) == it2.evaluate(expr.left)
    requires it1.evaluate(expr.right) == it2.evaluate(expr.right)
    requires AgreeOn(it1.ops, it2.ops, BinaryOpOf(expr.operator.tokenType))
    ensures VisitBinaryExpr(it1, expr) == VisitBinaryExpr(it2, expr)
  {
  }

  // ------------------------------------------------------------------ grouping

  /** A grouping is handed, whole, to the evaluator: its value is the
      evaluator's value of the grouping node itself, not of its inner expression. */
  function VisitGroupingExpr(it: Interpreter, expr: Expr): (r: Literal)
    requires expr.Grouping?
    ensures r == it.evaluate(expr)
  {
    it.evaluate(expr)
  }

  /** Operator implementations that all give `nil` or `false`. */
  function NilOps(): LiteralOps
  {
    LiteralOps(
      _ => Nil, _ => Nil,
      (_, _) => Nil, (_, _) => Nil, (_, _) => Nil, (_, _) => Nil,
      (_, _) => false, (_, _) => false, (_, _) => false,
      (_, _) => false, (_, _) => false, (_, _) => false)
  }

  /** For every inner expression there is an evaluator under which the grouping
      visitor's value differs from the inner expression's value: the visitor
      does not forward to the inner expression. */
  lemma GroupingIsNotForwarded(e: Expr)
    ensures exists it: Interpreter :: VisitGroupingExpr(it, Grouping(e)) != it.evaluate(e)
  {
    var it := Interpreter(x => if x == Grouping(e) then Nil else Boolean(true), NilOps());
    assert e < Grouping(e);
    assert VisitGroupingExpr(it, Grouping(e)) == Nil;
    assert it.evaluate(e) == Boolean(true);
  }

  // -------------------------------------------------------- concrete examples

  /** An evaluator that returns the value of a literal leaf. */
  ghost predicate EvaluatesLiterals(it: Interpreter)
  {
    forall v: Literal :: it.evaluate(LiteralExpr(v)) == v
  }

  /** `!nil` is `true` and `!0` is `false`: zero is truthy. */
  lemma BangExamples(it: Interpreter, bang: Token, zero: F64)
    requires bang.tokenType == Bang
    requires EvaluatesLiterals(it) && NegatesBooleans(it.ops)
    ensures VisitUnaryExpr(it, Unary(bang, LiteralExpr(Nil))) == Boolean(true)
    ensures VisitUnaryExpr(it, Unary(bang, LiteralExpr(Number(zero)))) == Boolean(false)
  {
  }
}

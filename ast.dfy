/** The strategy language's abstract syntax tree: the closed form of the
    dictionaries that the AST builder of dsl_parser.py produces. */
module Ast {
  import opened Text

  /** The comparison operators of the OP terminal. */
  datatype CmpOp = Gt | Lt | Ge | Le | Eq

  /** The operator's text, as `op.value` keeps it in a cmp node. */
  function Symbol(op: CmpOp): (s: string)
    ensures s in {">", "<", ">=", "<=", "=="}
  {
    match op
    case Gt => ">"
    case Lt => "<"
    case Ge => ">="
    case Le => "<="
    case Eq => "=="
  }

  /** Comparison operands: `{"type": "name" | "number" | "indicator" | "shift", ...}`.
      A number keeps its lexeme; how Python prints `float(lexeme)` is left to
      the serialiser's number formatter. */
  datatype Value =
    | Name(column: string)
    | Number(lexeme: string)
    | Indicator(name: string, args: seq<Value>)
    | Shift(base: string, n: nat)

  /** Boolean expressions: `{"type": "cmp" | "and" | "or" | "cross", ...}`. */
  datatype Expr =
    | Cmp(op: CmpOp, lhs: Value, rhs: Value)
    | And(left: Expr, right: Expr)
    | Or(left: Expr, right: Expr)
    | Cross(a: Value, b: Value)

  /** One `section` of a strategy: its keyword as written and its optional body. */
  datatype Section = Section(keyword: string, body: Option<Expr>)

  datatype Option<T> = None | Some(value: T)

  /** The shape every parsed value has: an indicator call has at least one
      argument and a lower-case name. */
  predicate WellFormedValue(v: Value)
  {
    match v
    case Indicator(n, args) =>
      |args| > 0 && Lower(n) == n && forall i :: 0 <= i < |args| ==> WellFormedValue(args[i])
    case _ => true
  }

  predicate WellFormedExpr(e: Expr)
  {
    match e
    case Cmp(_, l, r) => WellFormedValue(l) && WellFormedValue(r)
    case Cross(a, b) => WellFormedValue(a) && WellFormedValue(b)
    case And(l, r) => WellFormedExpr(l) && WellFormedExpr(r)
    case Or(l, r) => WellFormedExpr(l) && WellFormedExpr(r)
  }

  /** Number of `and` nodes in an expression. */
  function AndCount(e: Expr): nat
  {
    match e
    case Cmp(_, _, _) => 0
    case Cross(_, _) => 0
    case And(l, r) => 1 + AndCount(l) + AndCount(r)
    case Or(l, r) => AndCount(l) + AndCount(r)
  }

  /** Number of `or` nodes in an expression. */
  function OrCount(e: Expr): nat
  {
    match e
    case Cmp(_, _, _) => 0
    case Cross(_, _) => 0
    case And(l, r) => OrCount(l) + OrCount(r)
    case Or(l, r) => 1 + OrCount(l) + OrCount(r)
  }
}

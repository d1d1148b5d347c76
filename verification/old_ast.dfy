/**
 * The older syntax tree and its own copy of the operator set and binding
 * powers, shown here to agree with the newer tables operator for operator.
 */
module OldAst {
  import opened Wrappers
  import opened Values
  import Ast

  datatype Stmt =
    | Block(stmts: seq<Stmt>)
    | ExprStmt(expr: Expr)
    | VarDecl(name: string, init: Option<Expr>)

  datatype Expr =
    | Literal(value: Value)
    | Identifier(name: string)
    | Assign(target: string, source: Expr)
    | Binary(op: Operator, lhs: Expr, rhs: Expr)
    | Unary(op: Operator, operand: Expr)

  datatype Operator = Assign | Or | And | Not | Eq | Ne | Lt | Gt | Le | Ge | Add | Sub | Mul | Div | Mod | Exp

  predicate IsPrefix(op: Operator) {
    op == Not || op == Sub
  }

  predicate IsInfix(op: Operator) {
    match op
    case Assign | Or | And | Eq | Ne | Lt | Gt | Le | Ge | Add | Sub | Mul | Div | Mod | Exp => true
    case Not => false
  }

  function PrefixBindingPower(op: Operator): Option<nat> {
    match op
    case Not => Some(7)
    case Sub => Some(19)
    case _ => None
  }

  function InfixBindingPower(op: Operator): Option<(nat, nat)> {
    match op
    case Assign => Some((2, 1))
    case Or => Some((3, 4))
    case And => Some((5, 6))
    case Eq | Ne => Some((9, 10))
    case Lt | Gt | Le | Ge => Some((11, 12))
    case Add | Sub => Some((13, 14))
    case Mul | Div | Mod => Some((15, 16))
    case Exp => Some((18, 17))
    case Not => None
  }

  /** The operator of the newer tree with the same name. */
  function ToNew(op: Operator): Ast.Operator {
    match op
    case Assign => Ast.Assign
    case Or => Ast.Or
    case And => Ast.And
    case Not => Ast.Not
    case Eq => Ast.Eq
    case Ne => Ast.Ne
    case Lt => Ast.Lt
    case Gt => Ast.Gt
    case Le => Ast.Le
    case Ge => Ast.Ge
    case Add => Ast.Add
    case Sub => Ast.Sub
    case Mul => Ast.Mul
    case Div => Ast.Div
    case Mod => Ast.Mod
    case Exp => Ast.Exp
  }

  /** The operator of the older tree with the same name. */
  function FromNew(op: Ast.Operator): Operator {
    match op
    case Assign => Operator.Assign
    case Or => Or
    case And => And
    case Not => Not
    case Eq => Eq
    case Ne => Ne
    case Lt => Lt
    case Gt => Gt
    case Le => Le
    case Ge => Ge
    case Add => Add
    case Sub => Sub
    case Mul => Mul
    case Div => Div
    case Mod => Mod
    case Exp => Exp
  }

  /** Same-named operators correspond one to one between the two trees. */
  lemma ToNewRoundTrips(op: Operator, n: Ast.Operator)
    ensures FromNew(ToNew(op)) == op
    ensures ToNew(FromNew(n)) == n
  {
  }

  /** Both trees classify and bind every operator identically. */
  lemma TablesAgree(op: Operator)
    ensures IsPrefix(op) == Ast.IsPrefix(ToNew(op))
    ensures IsInfix(op) == Ast.IsInfix(ToNew(op))
    ensures PrefixBindingPower(op) == Ast.PrefixBindingPower(ToNew(op))
    ensures InfixBindingPower(op) == Ast.InfixBindingPower(ToNew(op))
  {
  }
}

/**
 * The tree-walking evaluator: statements run for their effect on the
 * scope chain, expressions produce values, and the first runtime error
 * stops evaluation with whatever effects happened before it.
 */
module Interpreter {
  import opened Wrappers
  import opened Values
  import opened Environment
  import Ast

  /**
   * The statement forms the evaluator matches on: blocks of statements,
   * expression statements, variable declarations and conditionals.
   * Expressions and operators are the newer tree's.
   */
  datatype Stmt =
    | Block(stmts: seq<Stmt>)
    | ExprStmt(expr: Ast.Expr)
    | VarDecl(name: string, init: Option<Ast.Expr>)
    | If(condition: Ast.Expr, consequent: Stmt, alternative: Option<Stmt>)

  datatype RuntimeError = InvalidOperand | DivisionByZero | UndefinedVariable

  /** The text reported for each runtime error. */
  function Message(e: RuntimeError): (m: string)
    ensures |m| > 0
  {
    match e
    case InvalidOperand => "unsupported operand type"
    case DivisionByZero => "division by zero is undefined"
    case UndefinedVariable => "variable is not defined"
  }

  lemma MessagesDistinct(a: RuntimeError, b: RuntimeError)
    ensures Message(a) == Message(b) <==> a == b
  {
    if a != b {
      assert Message(a)[0] != Message(b)[0] || |Message(a)| != |Message(b)|;
    }
  }

  /** Why evaluation stopped: a runtime error, or a panic on a path the evaluator leaves unfinished. */
  datatype Fault = Error(error: RuntimeError) | Abort(note: string)

  /**
   * What evaluation relies on but does not define here: the truthiness
   * of a value, and the floating-point remainder and power of two numbers.
   */
  datatype Host = Host(truthy: Value -> bool, rem: (real, real) -> real, pow: (real, real) -> real)

  /** The scope chain after a step, and the step's result. */
  datatype Run<+T> = Run(env: Env, result: Result<T, Fault>)

  /** An error result, keeping the scope chain as it stands. */
  function Stop<T>(env: Env, f: Fault): Run<T> {
    Run(env, Err(f))
  }

  /* ---------- operators on values ---------- */

  /** `check_number_operands`: both operands must be numbers. */
  function CheckNumberOperands(a: Value, b: Value): (r: Result<(real, real), RuntimeError>)
    ensures r.Ok? <==> a.Number? && b.Number?
    ensures r.Ok? ==> r.value == (a.n, b.n)
    ensures r.Err? ==> r.error == InvalidOperand
  {
    if a.Number? && b.Number? then Ok((a.n, b.n)) else Err(InvalidOperand)
  }

  /** The operators that take two numbers. */
  predicate Numeric(op: Ast.Operator) {
    op in {Ast.Lt, Ast.Gt, Ast.Le, Ast.Ge, Ast.Add, Ast.Sub, Ast.Mul, Ast.Div, Ast.Mod, Ast.Exp}
  }

  /** A binary operator other than `or`/`and`, applied to two evaluated operands. */
  function Strict(h: Host, op: Ast.Operator, a: Value, b: Value): (r: Result<Value, Fault>)
  {
    if op == Ast.Eq then Ok(Bool(a == b))
    else if op == Ast.Ne then Ok(Bool(a != b))
    else if !Numeric(op) then Err(Abort("unreachable"))
    else
      match CheckNumberOperands(a, b)
      case Err(e) => Err(Error(e))
      case Ok((x, y)) => NumberOp(h, op, x, y)
  }

  /** A numeric operator on two numbers; division and remainder refuse a zero divisor. */
  function NumberOp(h: Host, op: Ast.Operator, x: real, y: real): (r: Result<Value, Fault>)
    requires Numeric(op)
  {
    match op
    case Lt => Ok(Bool(x < y))
    case Gt => Ok(Bool(x > y))
    case Le => Ok(Bool(x <= y))
    case Ge => Ok(Bool(x >= y))
    case Add => Ok(Number(x + y))
    case Sub => Ok(Number(x - y))
    case Mul => Ok(Number(x * y))
    case Div => if y == 0.0 then Err(Error(DivisionByZero)) else Ok(Number(x / y))
    case Mod => if y == 0.0 then Err(Error(DivisionByZero)) else Ok(Number(h.rem(x, y)))
    case Exp => Ok(Number(h.pow(x, y)))
  }

  /** A prefix operator applied to its evaluated operand. */
  function UnaryOp(op: Ast.Operator, v: Value): (r: Result<Value, Fault>)
    ensures op == Ast.Not ==> (r.Ok? <==> v.Bool?) && (r.Ok? ==> r.value == Bool(!v.b))
    ensures op == Ast.Sub ==> (r.Ok? <==> v.Number?) && (r.Ok? ==> r.value == Number(-v.n))
    ensures op in {Ast.Not, Ast.Sub} && r.Err? ==> r.error == Error(InvalidOperand)
    ensures op !in {Ast.Not, Ast.Sub} ==> r.Err? && r.error.Abort?
  {
    if op == Ast.Not then
      if v.Bool? then Ok(Bool(!v.b)) else Err(Error(InvalidOperand))
    else if op == Ast.Sub then
      if v.Number? then Ok(Number(-v.n)) else Err(Error(InvalidOperand))
    else Err(Abort("unreachable"))
  }

  /* ---------- expressions ---------- */

  /** The expression contains no assignment. */
  predicate NoAssignment(e: Ast.Expr) {
    match e
    case Literal(_) => true
    case Identifier(_) => true
    case Assignment(_, _) => false
    case Binary(_, lhs, rhs) => NoAssignment(lhs) && NoAssignment(rhs)
    case Unary(_, operand) => NoAssignment(operand)
  }

  /**
   * `interpret_expr`. Operands are evaluated left to right; `or` and `and`
   * return an operand value itself and skip the right one when the left
   * decides. Evaluation never adds or removes a binding.
   */
  function EvalExpr(h: Host, env: Env, e: Ast.Expr): (r: Run<Value>)
    ensures SameShape(r.env, env)
    decreases e
  {
    match e
    case Literal(v) => Run(env, Ok(v))
    case Identifier(name) =>
      if Get(env, name).Some? then Run(env, Ok(Get(env, name).value))
      else Stop(env, Error(UndefinedVariable))
    case Assignment(target, source) =>
      var s := EvalExpr(h, env, source);
      if s.result.Err? then s
      else if target.Identifier? then
        var (env', prev) := Set(s.env, target.name, s.result.value);
        if prev.Some? then Run(env', Ok(prev.value)) else Stop(env', Error(UndefinedVariable))
      else Stop(s.env, Abort("unimplemented"))
    case Binary(op, lhs, rhs) =>
      var l := EvalExpr(h, env, lhs);
      if l.result.Err? then l
      else if op == Ast.Or || op == Ast.And then
        if h.truthy(l.result.value) == (op == Ast.Or) then l
        else EvalExpr(h, l.env, rhs)
      else
        var r := EvalExpr(h, l.env, rhs);
        if r.result.Err? then r
        else Run(r.env, Strict(h, op, l.result.value, r.result.value))
    case Unary(op, operand) =>
      var v := EvalExpr(h, env, operand);
      if v.result.Err? then v
      else Run(v.env, UnaryOp(op, v.result.value))
  }

  /* ---------- statements ---------- */

  /**
   * `b` has the scopes of `a`: the same depth, the same names in every
   * outer scope, and at least the names of the innermost one.
   */
  predicate Extends(b: Env, a: Env) {
    && |b| == |a|
    && (forall i :: 0 <= i < |a| - 1 ==> b[i].Keys == a[i].Keys)
    && a[|a| - 1].Keys <= b[|a| - 1].Keys
  }

  /**
   * `interpret_stmt`. A successful statement keeps the depth of the scope
   * chain and adds bindings only to the innermost scope; a failing one
   * may leave scopes it pushed.
   */
  function ExecStmt(h: Host, env: Env, s: Stmt): (r: Run<()>)
    ensures r.result.Ok? ==> Extends(r.env, env)
    ensures r.result.Ok? && s.Block? ==> SameShape(r.env, env)
    ensures r.result.Err? ==> |r.env| >= |env|
    decreases s, 1
  {
    match s
    case Block(stmts) => RunBlock(h, env, stmts)
    case ExprStmt(e) =>
      var v := EvalExpr(h, env, e);
      if v.result.Err? then Stop(v.env, v.result.error) else Run(v.env, Ok(()))
    case VarDecl(name, init) =>
      if init.None? then Run(Define(env, name, Nil), Ok(()))
      else
        var v := EvalExpr(h, env, init.value);
        if v.result.Err? then Stop(v.env, v.result.error)
        else Run(Define(v.env, name, v.result.value), Ok(()))
    case If(condition, consequent, alternative) =>
      var c := EvalExpr(h, env, condition);
      if c.result.Err? then Stop(c.env, c.result.error)
      else if h.truthy(c.result.value) then ExecStmt(h, c.env, consequent)
      else if alternative.Some? then ExecStmt(h, c.env, alternative.value)
      else Run(c.env, Ok(()))
  }

  /**
   * A block statement: a new scope for its statements, dropped once they
   * all succeed; an error leaves the new scope in place.
   */
  function RunBlock(h: Host, env: Env, stmts: seq<Stmt>): (r: Run<()>)
    ensures r.result.Ok? ==> SameShape(r.env, env)
    ensures r.result.Err? ==> |r.env| > |env|
    decreases stmts, 2
  {
    var b := ExecBlock(h, Push(env), stmts);
    if b.result.Err? then b
    else
      var outer := Pop(b.env);
      if outer.Some? then Run(outer.value, Ok(()))
      else Stop(b.env, Abort("pop called on root environment"))
  }

  /** The statements of a block in order, stopping at the first failure. */
  function ExecBlock(h: Host, env: Env, stmts: seq<Stmt>): (r: Run<()>)
    ensures r.result.Ok? ==> Extends(r.env, env)
    ensures r.result.Err? ==> |r.env| >= |env|
    decreases stmts, 0
  {
    if |stmts| == 0 then Run(env, Ok(()))
    else
      var first := ExecStmt(h, env, stmts[0]);
      if first.result.Err? then first
      else ExecBlock(h, first.env, stmts[1..])
  }
}

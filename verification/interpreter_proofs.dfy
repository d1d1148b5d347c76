/** Properties of the evaluator that relate several steps or operators. */
module InterpreterProofs {
  import opened Wrappers
  import opened Values
  import opened Environment
  import opened Interpreter
  import Ast

  /* ---------- logical operators ---------- */

  /** `or` yields a truthy left operand without evaluating the right one, else the right operand's run. */
  lemma OrShortCircuits(h: Host, env: Env, lhs: Ast.Expr, rhs: Ast.Expr)
    ensures var l := EvalExpr(h, env, lhs); var r := EvalExpr(h, env, Ast.Binary(Ast.Or, lhs, rhs));
      && (l.result.Err? ==> r == l)
      && (l.result.Ok? && h.truthy(l.result.value) ==> r == l)
      && (l.result.Ok? && !h.truthy(l.result.value) ==> r == EvalExpr(h, l.env, rhs))
  {
  }

  /** `and` yields a left operand that is not truthy without evaluating the right one. */
  lemma AndShortCircuits(h: Host, env: Env, lhs: Ast.Expr, rhs: Ast.Expr)
    ensures var l := EvalExpr(h, env, lhs); var r := EvalExpr(h, env, Ast.Binary(Ast.And, lhs, rhs));
      && (l.result.Err? ==> r == l)
      && (l.result.Ok? && !h.truthy(l.result.value) ==> r == l)
      && (l.result.Ok? && h.truthy(l.result.value) ==> r == EvalExpr(h, l.env, rhs))
  {
  }

  /* ---------- strict binary operators ---------- */

  /** Equality compares any two values structurally and never fails; `!=` is its negation. */
  lemma EqualityNeverFails(h: Host, op: Ast.Operator, a: Value, b: Value)
    requires op == Ast.Eq || op == Ast.Ne
    ensures Strict(h, op, a, b) == Ok(Bool((a == b) == (op == Ast.Eq)))
  {
  }

  /**
   * Any other binary operator evaluates the left operand, then the right
   * one in the chain the left left behind, and applies the operator to both
   * values; the first failure stops it.
   */
  lemma StrictOperandsLeftToRight(h: Host, env: Env, op: Ast.Operator, lhs: Ast.Expr, rhs: Ast.Expr)
    requires op != Ast.Or && op != Ast.And
    ensures var l := EvalExpr(h, env, lhs); var r := EvalExpr(h, l.env, rhs);
      var b := EvalExpr(h, env, Ast.Binary(op, lhs, rhs));
      && (l.result.Err? ==> b == l)
      && (l.result.Ok? && r.result.Err? ==> b == r)
      && (l.result.Ok? && r.result.Ok? ==> b == Run(r.env, Strict(h, op, l.result.value, r.result.value)))
  {
  }

  /** Ordering and arithmetic fail with `InvalidOperand` exactly when an operand is not a number. */
  lemma NumericNeedsNumbers(h: Host, op: Ast.Operator, a: Value, b: Value)
    requires Numeric(op)
    ensures Strict(h, op, a, b) == Err(Error(InvalidOperand)) <==> !(a.Number? && b.Number?)
  {
  }

  /**
   * `/` and `%` fail with `DivisionByZero` exactly when both operands are
   * numbers and the divisor is zero: the operand types are checked first.
   */
  lemma ZeroDivisor(h: Host, op: Ast.Operator, a: Value, b: Value)
    requires op == Ast.Div || op == Ast.Mod
    ensures Strict(h, op, a, b) == Err(Error(DivisionByZero)) <==> a.Number? && b == Number(0.0)
    ensures !a.Number? && b == Number(0.0) ==> Strict(h, op, a, b) == Err(Error(InvalidOperand))
  {
  }

  /** Every other numeric operator succeeds on two numbers. */
  lemma NumbersNeverFailOtherwise(h: Host, op: Ast.Operator, x: real, y: real)
    requires Numeric(op) && op != Ast.Div && op != Ast.Mod
    ensures Strict(h, op, Number(x), Number(y)).Ok?
  {
  }

  /** The comparisons agree with each other: `a < b` is `b > a`, and `a <= b` is not `a > b`. */
  lemma ComparisonsAgree(h: Host, x: real, y: real)
    ensures Strict(h, Ast.Lt, Number(x), Number(y)) == Strict(h, Ast.Gt, Number(y), Number(x))
    ensures Strict(h, Ast.Le, Number(x), Number(y)) == Ok(Bool(!Strict(h, Ast.Gt, Number(x), Number(y)).value.b))
    ensures Strict(h, Ast.Ge, Number(x), Number(y)) == Strict(h, Ast.Le, Number(y), Number(x))
  {
  }

  /** `not` and unary `-` undo themselves on the values they accept. */
  lemma UnaryInvolutive(v: Value)
    ensures v.Bool? ==> UnaryOp(Ast.Not, UnaryOp(Ast.Not, v).value) == Ok(v)
    ensures v.Number? ==> UnaryOp(Ast.Sub, UnaryOp(Ast.Sub, v).value) == Ok(v)
    ensures v.Nil? ==> UnaryOp(Ast.Not, v) == Err(Error(InvalidOperand)) && UnaryOp(Ast.Sub, v) == Err(Error(InvalidOperand))
  {
  }

  /* ---------- operands ---------- */

  /** A literal evaluates to its own value and leaves the chain as it was. */
  lemma LiteralIsItsValue(h: Host, env: Env, v: Value)
    ensures EvalExpr(h, env, Ast.Literal(v)) == Run(env, Ok(v))
  {
  }

  /**
   * A name evaluates to the value of its innermost binding, and fails with
   * `UndefinedVariable` exactly when no scope binds it; reading it changes
   * nothing.
   */
  lemma IdentifierReadsInnermost(h: Host, env: Env, name: string, v: Value)
    ensures var r := EvalExpr(h, env, Ast.Identifier(name));
      && r.env == env
      && (r.result == Ok(v) <==>
            exists i :: 0 <= i < |env| && name in env[i] && env[i][name] == v && forall j :: i < j < |env| ==> name !in env[j])
      && (r.result == Err(Error(UndefinedVariable)) <==> forall i :: 0 <= i < |env| ==> name !in env[i])
  {
    GetIsInnermost(env, name, v);
  }

  /**
   * A prefix operation evaluates its operand first and applies the operator
   * to the value, in the chain the operand left behind; a failing operand is
   * passed through unchanged. `not` succeeds exactly on a boolean, `-`
   * exactly on a number.
   */
  lemma UnaryAfterOperand(h: Host, env: Env, op: Ast.Operator, operand: Ast.Expr)
    ensures var v := EvalExpr(h, env, operand); var u := EvalExpr(h, env, Ast.Unary(op, operand));
      && (v.result.Err? ==> u == v)
      && (v.result.Ok? ==> u == Run(v.env, UnaryOp(op, v.result.value)))
      && (op == Ast.Not ==> (u.result.Ok? <==> v.result.Ok? && v.result.value.Bool?))
      && (op == Ast.Sub ==> (u.result.Ok? <==> v.result.Ok? && v.result.value.Number?))
      && (op == Ast.Sub && u.result.Ok? ==> u.result.value == Number(-v.result.value.n))
      && (op == Ast.Not && u.result.Ok? ==> u.result.value == Bool(!v.result.value.b))
  {
  }

  /* ---------- variables ---------- */

  /**
   * Assignment evaluates its source first, then replaces the innermost
   * binding of the target and yields the value the variable held before;
   * an unbound target is `UndefinedVariable` and creates nothing.
   */
  lemma AssignmentYieldsPrevious(h: Host, env: Env, name: string, source: Ast.Expr, other: string)
    requires EvalExpr(h, env, source).result.Ok?
    ensures var s := EvalExpr(h, env, source); var v := s.result.value;
      var r := EvalExpr(h, env, Ast.Assignment(Ast.Identifier(name), source));
      && (Get(s.env, name).Some? ==>
            && r.result == Ok(Get(s.env, name).value)
            && Get(r.env, name) == Some(v)
            && (other != name ==> Get(r.env, other) == Get(s.env, other)))
      && (Get(s.env, name).None? ==> r == Run(s.env, Err(Error(UndefinedVariable))))
  {
    var s := EvalExpr(h, env, source);
    if Get(s.env, name).Some? {
      SetReplacesInnermost(s.env, name, s.result.value, other);
    }
  }

  /** A target other than a name is an unfinished path, reached after the source has run. */
  lemma AssignmentToNonNameAborts(h: Host, env: Env, target: Ast.Expr, source: Ast.Expr)
    requires !target.Identifier? && EvalExpr(h, env, source).result.Ok?
    ensures EvalExpr(h, env, Ast.Assignment(target, source)) ==
      Run(EvalExpr(h, env, source).env, Err(Abort("unimplemented")))
  {
  }

  /** An expression without assignments leaves the scope chain exactly as it was. */
  lemma {:induction false} ReadsDoNotWrite(h: Host, env: Env, e: Ast.Expr)
    requires NoAssignment(e)
    ensures EvalExpr(h, env, e).env == env
    decreases e
  {
    match e
    case Literal(_) =>
    case Identifier(_) =>
    case Binary(_, lhs, rhs) =>
      ReadsDoNotWrite(h, env, lhs);
      ReadsDoNotWrite(h, env, rhs);
    case Unary(_, operand) =>
      ReadsDoNotWrite(h, env, operand);
  }

  /* ---------- statements ---------- */

  /** A declaration without initializer binds `nil` in the innermost scope. */
  lemma VarDeclDefaultsToNil(h: Host, env: Env, name: string)
    ensures ExecStmt(h, env, VarDecl(name, None)) == Run(Define(env, name, Nil), Ok(()))
    ensures Get(ExecStmt(h, env, VarDecl(name, None)).env, name) == Some(Nil)
  {
    DefineThenGet(env, name, Nil, name);
  }

  /** A declaration with initializer binds the initializer's value after its effects. */
  lemma VarDeclBindsValue(h: Host, env: Env, name: string, init: Ast.Expr)
    requires EvalExpr(h, env, init).result.Ok?
    ensures var v := EvalExpr(h, env, init);
      ExecStmt(h, env, VarDecl(name, Some(init))) == Run(Define(v.env, name, v.result.value), Ok(()))
  {
  }

  /**
   * `if` runs the consequent when the condition is truthy, otherwise the
   * alternative if there is one, and never both.
   */
  lemma IfRunsOneBranch(h: Host, env: Env, c: Ast.Expr, t: Stmt, a: Option<Stmt>)
    requires EvalExpr(h, env, c).result.Ok?
    ensures var v := EvalExpr(h, env, c); var r := ExecStmt(h, env, If(c, t, a));
      && (h.truthy(v.result.value) ==> r == ExecStmt(h, v.env, t))
      && (!h.truthy(v.result.value) && a.Some? ==> r == ExecStmt(h, v.env, a.value))
      && (!h.truthy(v.result.value) && a.None? ==> r == Run(v.env, Ok(())))
  {
  }

  /** Running `xs + ys` is running `xs`, then `ys` from where it left off unless it failed. */
  lemma {:induction false} ExecBlockAppend(h: Host, env: Env, xs: seq<Stmt>, ys: seq<Stmt>)
    ensures var r := ExecBlock(h, env, xs);
      ExecBlock(h, env, xs + ys) == if r.result.Err? then r else ExecBlock(h, r.env, ys)
    decreases |xs|
  {
    if |xs| == 0 {
      assert xs + ys == ys;
    } else {
      assert (xs + ys)[0] == xs[0];
      assert (xs + ys)[1..] == xs[1..] + ys;
      var first := ExecStmt(h, env, xs[0]);
      if first.result.Ok? {
        ExecBlockAppend(h, first.env, xs[1..], ys);
      }
    }
  }

  /** A declaration inside a block is gone once the block ends: the chain is as before. */
  lemma BlockDiscardsDefinitions(h: Host, env: Env, name: string, v: Value)
    ensures ExecStmt(h, env, Block([VarDecl(name, Some(Ast.Literal(v)))])) == Run(env, Ok(()))
  {
    var inner := Define(Push(env), name, v);
    assert ExecStmt(h, Push(env), VarDecl(name, Some(Ast.Literal(v)))) == Run(inner, Ok(()));
    assert ExecBlock(h, Push(env), [VarDecl(name, Some(Ast.Literal(v)))]) == Run(inner, Ok(()));
    PushPopRestores(env, name, v);
  }

  /** An error inside a block returns with the block's scope still pushed. */
  lemma BlockErrorKeepsScope(h: Host, env: Env, name: string)
    requires Get(env, name).None?
    ensures ExecStmt(h, env, Block([ExprStmt(Ast.Identifier(name))])) ==
      Run(Push(env), Err(Error(UndefinedVariable)))
  {
    PushPreservesGet(env, name);
    assert ExecBlock(h, Push(env), [ExprStmt(Ast.Identifier(name))]) ==
      Run(Push(env), Err(Error(UndefinedVariable)));
  }
}

/**
 * The newer syntax tree, the operator set with its binding powers, the
 * conversion from tokens to operators, and the parse error type both
 * parsers report.
 */
module Ast {
  import opened Wrappers
  import opened Values
  import TK = Tokens

  /** How an error message names a token kind: quoted, or plain for variable-length kinds and `Eof`. */
  datatype KindText = Quoted(kind: TK.TokenKind) | Plain(kind: TK.TokenKind)

  /** Error messages, kept as structure rather than rendered text. */
  datatype Message =
    | ExpectedGot(expected: KindText, got: KindText)  // "expected X got Y"
    | Expected(expected: KindText)                    // "expected X"
    | UnexpectedToken(token: TK.Token)                // "unexpected token: {token:?}"
    | Text(text: string)

  datatype ParseError = ParseError(span: TK.Span, message: Message)

  /** The `quote_maybe` rule: variable-length kinds and `Eof` are named bare. */
  function QuoteMaybe(k: TK.TokenKind): (t: KindText)
    ensures t.kind == k
    ensures t.Plain? <==> TK.IsVariableLength(k) || k == TK.Eof
  {
    if TK.IsVariableLength(k) || k == TK.Eof then Plain(k) else Quoted(k)
  }

  /** A whole program: its declarations in order. */
  datatype Script = Script(decls: seq<Decl>)

  datatype Decl =
    | Var(name: string, init: Option<Expr>)
    | Func(name: string, params: seq<string>, body: Stmt)
    | StmtDecl(stmt: Stmt)

  datatype Stmt =
    | If(condition: Expr, consequent: Stmt, alternative: Option<Stmt>)
    | ExprStmt(expr: Expr)
    | Block(decls: seq<Decl>)
    | Print(expr: Expr)

  datatype Expr =
    | Literal(value: Value)
    | Identifier(name: string)
    | Assignment(target: Expr, source: Expr)
    | Binary(op: Operator, lhs: Expr, rhs: Expr)
    | Unary(op: Operator, operand: Expr)

  datatype Operator = Assign | Or | And | Not | Eq | Ne | Lt | Gt | Le | Ge | Add | Sub | Mul | Div | Mod | Exp

  predicate IsPrefix(op: Operator) {
    op == Not || op == Sub
  }

  predicate IsInfix(op: Operator) {
    match op
    case Assign | Or | And | Eq | Ne | Lt | Gt | Le | Ge | Add | Sub | Mul | Div | Mod | Exp => true
    case Not => false
  }

  /** The right binding power of a prefix operator. */
  function PrefixBindingPower(op: Operator): Option<nat> {
    match op
    case Not => Some(7)
    case Sub => Some(19)
    case _ => None
  }

  /** The (left, right) binding powers of an infix operator. */
  function InfixBindingPower(op: Operator): Option<(nat, nat)> {
    match op
    case Assign => Some((2, 1))
    case Or => Some((3, 4))
    case And => Some((5, 6))
    case Eq | Ne => Some((9, 10))
    case Lt | Gt | Le | Ge => Some((11, 12))
    case Add | Sub => Some((13, 14))
    case Mul | Div | Mod => Some((15, 16))
    case Exp => Some((18, 17))
    case Not => None
  }

  lemma PrefixPowerExactlyForPrefix(op: Operator)
    ensures PrefixBindingPower(op).Some? <==> IsPrefix(op)
  {
  }

  /**
   * Where the prefix powers sit on the infix ladder: `not` takes an operand
   * that runs through equality and tighter operators but stops before `and`,
   * `or` and `=`; unary `-` takes a bare operand, stopping before every infix
   * operator, `**` included.
   */
  lemma PrefixPowersOnLadder(b: Operator)
    requires IsInfix(b)
    ensures PrefixBindingPower(Not).value <= InfixBindingPower(b).value.0 <==> Level(b) >= Level(Eq)
    ensures InfixBindingPower(And).value.1 < PrefixBindingPower(Not).value < InfixBindingPower(Eq).value.0
    ensures PrefixBindingPower(Sub).value > InfixBindingPower(b).value.0
    ensures PrefixBindingPower(Sub).value == InfixBindingPower(Exp).value.0 + 1
  {
  }

  lemma InfixPowerExactlyForInfix(op: Operator)
    ensures InfixBindingPower(op).Some? <==> IsInfix(op)
  {
  }

  /** Only assignment and exponentiation associate to the right; every pair differs by one. */
  lemma Associativity(op: Operator)
    requires IsInfix(op)
    ensures var (l, r) := InfixBindingPower(op).value;
      && (l > r <==> op == Assign || op == Exp)
      && (l > r ==> r + 1 == l)
      && (l < r ==> l + 1 == r)
  {
  }

  /**
   * The precedence ladder, lowest first: assignment, `or`, `and`, equality,
   * comparison, additive, multiplicative, exponentiation.
   */
  function Level(op: Operator): nat {
    match op
    case Assign => 0
    case Or => 1
    case And => 2
    case Eq | Ne => 3
    case Lt | Gt | Le | Ge => 4
    case Add | Sub => 5
    case Mul | Div | Mod => 6
    case Exp => 7
    case Not => 0
  }

  /**
   * The intended grouping of `a o1 b o2 c`: `b` is the left operand of `o2`
   * when `o2` sits higher on the ladder, or on the same level when that
   * level associates to the right (exponentiation and assignment).
   */
  predicate GroupsRight(o1: Operator, o2: Operator) {
    Level(o1) < Level(o2) || (Level(o1) == Level(o2) && (o1 == Exp || o1 == Assign))
  }

  /**
   * The binding powers realise the intended grouping: in `a o1 b o2 c`, `o2`
   * may continue the right operand of `o1` exactly when the ladder groups
   * `b` with `o2`.
   */
  lemma GroupingFollowsPowers(o1: Operator, o2: Operator)
    requires IsInfix(o1) && IsInfix(o2)
    ensures GroupsRight(o1, o2) <==> InfixBindingPower(o1).value.1 <= InfixBindingPower(o2).value.0
  {
  }

  /** Left binding powers order the infix operators exactly as the ladder does. */
  lemma LeftPowerFollowsLadder(a: Operator, b: Operator)
    requires IsInfix(a) && IsInfix(b)
    ensures InfixBindingPower(a).value.0 < InfixBindingPower(b).value.0 <==> Level(a) < Level(b)
    ensures InfixBindingPower(a) == InfixBindingPower(b) <==> Level(a) == Level(b)
  {
  }

  /** Every right binding power lies strictly between its own level's left power and the next level's. */
  lemma RightPowerSeparatesLevels(a: Operator, b: Operator)
    requires IsInfix(a) && IsInfix(b)
    ensures var ra := InfixBindingPower(a).value.1; var lb := InfixBindingPower(b).value.0;
      (Level(a) < Level(b) ==> ra < lb) && (Level(b) < Level(a) ==> lb < ra)
  {
  }

  /** The token kind each operator is written with. */
  function OperatorKind(op: Operator): TK.TokenKind {
    match op
    case Assign => TK.Equal
    case Or => TK.Or
    case And => TK.And
    case Not => TK.Not
    case Eq => TK.EqualEqual
    case Ne => TK.BangEqual
    case Lt => TK.Less
    case Gt => TK.Greater
    case Le => TK.LessEqual
    case Ge => TK.GreaterEqual
    case Add => TK.Plus
    case Sub => TK.Minus
    case Mul => TK.Star
    case Div => TK.Slash
    case Mod => TK.Percent
    case Exp => TK.StarStar
  }

  /** `TryFrom<Token> for Operator`. */
  function TryFromToken(t: TK.Token): Result<Operator, ParseError> {
    match t.kind
    case Equal => Ok(Assign)
    case Or => Ok(Or)
    case And => Ok(And)
    case Not => Ok(Not)
    case EqualEqual => Ok(Eq)
    case BangEqual => Ok(Ne)
    case Less => Ok(Lt)
    case Greater => Ok(Gt)
    case LessEqual => Ok(Le)
    case GreaterEqual => Ok(Ge)
    case Plus => Ok(Add)
    case Minus => Ok(Sub)
    case Star => Ok(Mul)
    case Slash => Ok(Div)
    case Percent => Ok(Mod)
    case StarStar => Ok(Exp)
    case _ => Err(ParseError(t.span, UnexpectedToken(t)))
  }

  /** Converting a token written with an operator's kind gives back that operator. */
  lemma TryFromTokenInvertsOperatorKind(t: TK.Token, op: Operator)
    requires t.kind == OperatorKind(op)
    ensures TryFromToken(t) == Ok(op)
  {
  }

  /** A successful conversion names the operator written with the token's kind. */
  lemma TryFromTokenIsOperatorKind(t: TK.Token)
    requires TryFromToken(t).Ok?
    ensures OperatorKind(TryFromToken(t).value) == t.kind
  {
  }

  /** The conversion fails exactly on kinds no operator is written with, and reports the token where it stands. */
  lemma TryFromTokenFailsOffOperators(t: TK.Token)
    ensures TryFromToken(t).Err? <==> (forall o: Operator :: OperatorKind(o) != t.kind)
    ensures TryFromToken(t).Err? ==> TryFromToken(t).error == ParseError(t.span, UnexpectedToken(t))
  {
    if TryFromToken(t).Ok? {
      TryFromTokenIsOperatorKind(t);
    }
  }

  /** No operator kind is `Eof`, so converting a token that ends a stream always fails. */
  lemma EofIsNoOperator(t: TK.Token)
    requires t.kind == TK.Eof
    ensures TryFromToken(t).Err?
  {
  }
}

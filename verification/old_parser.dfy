/**
 * The older parser: one statement per call, `let` names taken from
 * whatever token follows, numeric literals that may fail to convert, and
 * `=` treated as one more binary operator. It reads the same kind of
 * token stream as the newer parser.
 */
module OldParser {
  import opened Wrappers
  import opened Values
  import opened OldAst
  import opened Numerals
  import Ast
  import TK = Tokens
  import P = Parser

  /** `TryFrom<Token> for Operator`, into the older operator set. */
  function TryFromToken(t: TK.Token): (r: Result<Operator, Ast.ParseError>)
    ensures r.Err? ==> r.error == Ast.ParseError(t.span, Ast.UnexpectedToken(t))
  {
    match t.kind
    case Equal => Ok(Operator.Assign)
    case Or => Ok(Or)
    case And => Ok(And)
    case Not => Ok(Not)
    case EqualEqual => Ok(Eq)
    case BangEqual => Ok(Ne)
    case Less => Ok(Lt)
    case Greater => Ok(Gt)
    case LessEqual => Ok(Le)
    case GreaterEqual => Ok(Ge)
    case Plus => Ok(Add)
    case Minus => Ok(Sub)
    case Star => Ok(Mul)
    case Slash => Ok(Div)
    case Percent => Ok(Mod)
    case StarStar => Ok(Exp)
    case _ => Err(Ast.ParseError(t.span, Ast.UnexpectedToken(t)))
  }

  /** Both conversions accept the same tokens, name the same operator, and fail alike. */
  lemma TryFromTokenAgrees(t: TK.Token)
    ensures TryFromToken(t).Ok? <==> Ast.TryFromToken(t).Ok?
    ensures TryFromToken(t).Ok? ==> ToNew(TryFromToken(t).value) == Ast.TryFromToken(t).value
    ensures TryFromToken(t).Err? ==> TryFromToken(t).error == Ast.TryFromToken(t).error
  {
  }

  /** `expect`: consume a token of kind `k`, or report "expected k" at the token found. */
  function Expect(ts: seq<TK.Token>, p: nat, k: TK.TokenKind): (r: P.Outcome<()>)
    requires P.WellFormed(ts) && p <= |ts| && k != TK.Eof
    ensures !r.Panic?
    ensures r.Done? <==> P.StreamAt(ts, p).kind == k
    ensures r.Done? ==> r.rest == p + 1 && r.rest < |ts|
    ensures r.Fail? ==> r.error == Ast.ParseError(P.StreamAt(ts, p).span, Ast.Expected(Ast.QuoteMaybe(k)))
  {
    var t := P.StreamAt(ts, p);
    if t.kind == k then P.Done((), p + 1)
    else P.Fail(Ast.ParseError(t.span, Ast.Expected(Ast.QuoteMaybe(k))))
  }

  /** No `Assign` node: the older parser writes assignment as a binary operator. */
  predicate NoAssignNode(e: Expr) {
    match e
    case Literal(_) => true
    case Identifier(_) => true
    case Assign(_, _) => false
    case Binary(_, lhs, rhs) => NoAssignNode(lhs) && NoAssignNode(rhs)
    case Unary(_, operand) => NoAssignNode(operand)
  }

  /** The token continues an expression parsed at `minBp`: an infix operator binding at least as tightly. */
  predicate Continues(t: TK.Token, minBp: nat) {
    && TryFromToken(t).Ok?
    && InfixBindingPower(TryFromToken(t).value).Some?
    && InfixBindingPower(TryFromToken(t).value).value.0 >= minBp
  }

  /** `parse`: exactly one statement. */
  function Parse(ts: seq<TK.Token>): (r: P.Outcome<Stmt>)
    requires P.WellFormed(ts)
    ensures P.Consumed(ts, 0, r)
  {
    ParseStmt(ts, 0)
  }

  /** `stmt`: `{` starts a block, `let` a variable declaration, anything else an expression statement. */
  function ParseStmt(ts: seq<TK.Token>, p: nat): (r: P.Outcome<Stmt>)
    requires P.InStream(ts, p)
    ensures P.Consumed(ts, p, r)
    ensures r.Done? ==> (r.value.Block? <==> ts[p].kind == TK.LBrace)
    ensures r.Done? ==> (r.value.VarDecl? <==> ts[p].kind == TK.Let)
    decreases |ts| - p, 7
  {
    var k := ts[p].kind;
    if k == TK.LBrace then ParseBlock(ts, p)
    else if k == TK.Let then ParseVarDecl(ts, p)
    else ParseExprStmt(ts, p)
  }

  /** `block_stmt`: `{`, statements until `}` or `Eof`, then `}`. */
  function ParseBlock(ts: seq<TK.Token>, p: nat): (r: P.Outcome<Stmt>)
    requires P.InStream(ts, p)
    ensures P.Consumed(ts, p, r)
    ensures r.Done? ==> r.value.Block? && ts[r.rest - 1].kind == TK.RBrace
    decreases |ts| - p, 6
  {
    match Expect(ts, p, TK.LBrace)
    case Fail(e) => P.Fail(e)
    case Done(_, q) =>
      match BlockLoop(ts, q)
      case Fail(e) => P.Fail(e)
      case Panic(h) => P.Panic(h)
      case Done(ss, q1) =>
        match Expect(ts, q1, TK.RBrace)
        case Done(_, q2) => P.Done(Block(ss), q2)
        case Fail(e) => P.Fail(e)
  }

  /** The statements of a block, up to the first `}` or `Eof` at their level. */
  function BlockLoop(ts: seq<TK.Token>, p: nat): (r: P.Outcome<seq<Stmt>>)
    requires P.InStream(ts, p)
    ensures P.Kept(ts, p, r)
    ensures r.Done? ==> ts[r.rest].kind in {TK.Eof, TK.RBrace}
    decreases |ts| - p, 8
  {
    if ts[p].kind == TK.Eof || ts[p].kind == TK.RBrace then P.Done([], p)
    else
      match ParseStmt(ts, p)
      case Fail(e) => P.Fail(e)
      case Panic(h) => P.Panic(h)
      case Done(s, q) =>
        match BlockLoop(ts, q)
        case Done(ss, q1) => P.Done([s] + ss, q1)
        case Fail(e) => P.Fail(e)
        case Panic(h) => P.Panic(h)
  }

  /** `expr_stmt`: an expression and its `;`. */
  function ParseExprStmt(ts: seq<TK.Token>, p: nat): (r: P.Outcome<Stmt>)
    requires P.InStream(ts, p)
    ensures P.Consumed(ts, p, r)
    ensures r.Done? ==> r.value.ExprStmt? && ts[r.rest - 1].kind == TK.Semicolon
    decreases |ts| - p, 6
  {
    match ExprBp(ts, p, 0)
    case Done(e, q) => Finish(ts, q, ExprStmt(e))
    case Fail(e) => P.Fail(e)
    case Panic(h) => P.Panic(h)
  }

  /** Require the closing `;` and return `s`. */
  function Finish(ts: seq<TK.Token>, p: nat, s: Stmt): (r: P.Outcome<Stmt>)
    requires P.WellFormed(ts) && p <= |ts|
    ensures !r.Panic?
    ensures r.Done? ==> r.value == s && r.rest == p + 1 && r.rest < |ts| && ts[p].kind == TK.Semicolon
  {
    match Expect(ts, p, TK.Semicolon)
    case Done(_, q) => P.Done(s, q)
    case Fail(e) => P.Fail(e)
  }

  /**
   * `var_decl`: `let`, then whatever token comes next as the name, an
   * initializer exactly when `=` follows, then `;`.
   */
  function ParseVarDecl(ts: seq<TK.Token>, p: nat): (r: P.Outcome<Stmt>)
    requires P.InStream(ts, p)
    ensures P.Consumed(ts, p, r)
    ensures r.Done? ==> r.value.VarDecl? && ts[r.rest - 1].kind == TK.Semicolon
    ensures r.Done? ==>
      && ts[p].kind == TK.Let && p + 2 < |ts|
      && r.value.name == TK.Slice(ts[p + 1].span)
      && (r.value.init.Some? <==> ts[p + 2].kind == TK.Equal)
    decreases |ts| - p, 6
  {
    var start := Expect(ts, p, TK.Let);
    if start.Fail? then P.Fail(start.error)
    else VarRest(ts, p + 2, TK.Slice(ts[p + 1].span))
  }

  /** After the name, which may have been the `Eof`: an optional `= init`, then `;`. */
  function VarRest(ts: seq<TK.Token>, p: nat, name: string): (r: P.Outcome<Stmt>)
    requires P.WellFormed(ts) && p <= |ts|
    ensures r.Done? ==> p < r.rest < |ts| && ts[r.rest - 1].kind == TK.Semicolon
    ensures r.Done? ==> r.value.VarDecl? && r.value.name == name
    ensures r.Done? ==> (r.value.init.Some? <==> ts[p].kind == TK.Equal)
    decreases |ts| - p, 5
  {
    if P.StreamAt(ts, p).kind == TK.Equal then VarInit(ts, p + 1, name)
    else Finish(ts, p, VarDecl(name, None))
  }

  /** After `=`: the initializer, then `;`. */
  function VarInit(ts: seq<TK.Token>, p: nat, name: string): (r: P.Outcome<Stmt>)
    requires P.InStream(ts, p)
    ensures r.Done? ==> p < r.rest < |ts| && ts[r.rest - 1].kind == TK.Semicolon
    ensures r.Done? ==> r.value.VarDecl? && r.value.name == name && r.value.init.Some?
    decreases |ts| - p, 4
  {
    match ExprBp(ts, p, 0)
    case Done(init, q) => Finish(ts, q, VarDecl(name, Some(init)))
    case Fail(e) => P.Fail(e)
    case Panic(h) => P.Panic(h)
  }

  /**
   * `expr_bp`: one prefix form, then infix operators binding at least as
   * tightly as `minBp`; the expression ends before a token that cannot
   * continue it.
   */
  function ExprBp(ts: seq<TK.Token>, p: nat, minBp: nat): (r: P.Outcome<Expr>)
    requires P.InStream(ts, p)
    ensures P.Consumed(ts, p, r)
    ensures r.Done? ==> !Continues(ts[r.rest], minBp) && NoAssignNode(r.value)
    decreases |ts| - p, 3
  {
    var t := ts[p];
    if t.kind == TK.Identifier then InfixLoop(ts, p + 1, minBp, Identifier(TK.Slice(t.span)))
    else if t.kind == TK.Number then
      match ParseNumber(TK.Slice(t.span))
      case Some(n) => InfixLoop(ts, p + 1, minBp, Literal(Number(n)))
      case None => P.Fail(Ast.ParseError(t.span, Ast.Text("failed to parse numeric literal")))
    else if t.kind == TK.String then P.Panic(P.Todo(""))
    else if t.kind == TK.False then InfixLoop(ts, p + 1, minBp, Literal(Bool(false)))
    else if t.kind == TK.True then InfixLoop(ts, p + 1, minBp, Literal(Bool(true)))
    else if t.kind == TK.Nil then InfixLoop(ts, p + 1, minBp, Literal(Values.Nil))
    else if t.kind == TK.LParen then Group(ts, p, minBp)
    else Prefix(ts, p, minBp)
  }

  /** A parenthesised expression. */
  function Group(ts: seq<TK.Token>, p: nat, minBp: nat): (r: P.Outcome<Expr>)
    requires P.InStream(ts, p) && ts[p].kind == TK.LParen
    ensures P.Consumed(ts, p, r)
    ensures r.Done? ==> !Continues(ts[r.rest], minBp) && NoAssignNode(r.value)
    decreases |ts| - p, 2
  {
    match ExprBp(ts, p + 1, 0)
    case Fail(e) => P.Fail(e)
    case Panic(h) => P.Panic(h)
    case Done(inner, q) =>
      match Expect(ts, q, TK.RParen)
      case Done(_, q1) => InfixLoop(ts, q1, minBp, inner)
      case Fail(e) => P.Fail(e)
  }

  /** Any other token in prefix position must be a prefix operator. */
  function Prefix(ts: seq<TK.Token>, p: nat, minBp: nat): (r: P.Outcome<Expr>)
    requires P.InStream(ts, p)
    ensures P.Consumed(ts, p, r)
    ensures r.Done? ==> !Continues(ts[r.rest], minBp) && NoAssignNode(r.value)
    decreases |ts| - p, 2
  {
    match TryFromToken(ts[p])
    case Err(e) => P.Fail(e)
    case Ok(op) =>
      if PrefixBindingPower(op).Some? then
        match ExprBp(ts, p + 1, PrefixBindingPower(op).value)
        case Done(operand, q) => InfixLoop(ts, q, minBp, Unary(op, operand))
        case Fail(e) => P.Fail(e)
        case Panic(h) => P.Panic(h)
      else
        P.Panic(P.Todo("error reporting"))
  }

  /** The infix loop: go on while the next token continues the expression. */
  function InfixLoop(ts: seq<TK.Token>, p: nat, minBp: nat, lhs: Expr): (r: P.Outcome<Expr>)
    requires P.InStream(ts, p)
    ensures P.Kept(ts, p, r)
    ensures r.Done? ==> !Continues(ts[r.rest], minBp)
    ensures r.Done? && NoAssignNode(lhs) ==> NoAssignNode(r.value)
    decreases |ts| - p, 1
  {
    if Continues(ts[p], minBp) then InfixStep(ts, p, minBp, lhs) else P.Done(lhs, p)
  }

  /** Consume the operator at `p`, `=` included, and its right operand into a binary node. */
  function InfixStep(ts: seq<TK.Token>, p: nat, minBp: nat, lhs: Expr): (r: P.Outcome<Expr>)
    requires P.InStream(ts, p) && Continues(ts[p], minBp)
    ensures P.Consumed(ts, p, r)
    ensures r.Done? ==> !Continues(ts[r.rest], minBp)
    ensures r.Done? && NoAssignNode(lhs) ==> NoAssignNode(r.value)
    decreases |ts| - p, 0
  {
    var op := TryFromToken(ts[p]).value;
    match ExprBp(ts, p + 1, InfixBindingPower(op).value.1)
    case Done(rhs, q) => InfixLoop(ts, q, minBp, Binary(op, lhs, rhs))
    case Fail(e) => P.Fail(e)
    case Panic(h) => P.Panic(h)
  }
}

/**
 * Worked examples of the older parser, and what it makes of the spans the
 * older scanner produces.
 */
module OldParserExamples {
  import opened Wrappers
  import opened Values
  import opened OldAst
  import opened OldParser
  import Ast
  import Numerals
  import TK = Tokens
  import P = Parser
  import OS = OldScanner
  import OldScannerExamples

  /** The text a token's span covers. */
  function Name(ts: seq<TK.Token>, i: nat): string
    requires P.WellFormed(ts) && i < |ts|
  {
    TK.Slice(ts[i].span)
  }

  /** Whatever token follows `let` becomes the name, even one that is no identifier. */
  lemma LetTakesAnyName(ts: seq<TK.Token>)
    requires P.WellFormed(ts) && |ts| == 4
    requires ts[0].kind == TK.Let && ts[2].kind == TK.Semicolon
    ensures Parse(ts) == P.Done(VarDecl(Name(ts, 1), None), 3)
  {
    assert ParseStmt(ts, 0) == ParseVarDecl(ts, 0);
  }

  /** `let` at the end of input takes the `Eof` as its name and then misses the `;`. */
  lemma LetAtEnd(ts: seq<TK.Token>)
    requires P.WellFormed(ts) && |ts| == 2 && ts[0].kind == TK.Let
    ensures Parse(ts) == P.Fail(Ast.ParseError(ts[1].span, Ast.Expected(Ast.Quoted(TK.Semicolon))))
  {
    assert ParseStmt(ts, 0) == ParseVarDecl(ts, 0);
    assert P.StreamAt(ts, 2) == ts[1];
  }

  /** A `Number` token whose span is empty slices to "", which does not convert. */
  lemma EmptyNumberFails(ts: seq<TK.Token>, p: nat, minBp: nat)
    requires P.InStream(ts, p) && ts[p].kind == TK.Number
    requires ts[p].span.start == ts[p].span.end
    ensures ExprBp(ts, p, minBp) ==
      P.Fail(Ast.ParseError(ts[p].span, Ast.Text("failed to parse numeric literal")))
  {
    assert Name(ts, p) == [];
  }

  /* One step of `expr_bp` at a time, for composing the examples below. */

  lemma IdentifierOperand(ts: seq<TK.Token>, p: nat, minBp: nat)
    requires P.InStream(ts, p) && ts[p].kind == TK.Identifier
    ensures ExprBp(ts, p, minBp) == InfixLoop(ts, p + 1, minBp, Identifier(Name(ts, p)))
  {
  }

  lemma LoopStops(ts: seq<TK.Token>, p: nat, minBp: nat, lhs: Expr)
    requires P.InStream(ts, p) && !Continues(ts[p], minBp)
    ensures InfixLoop(ts, p, minBp, lhs) == P.Done(lhs, p)
  {
  }

  lemma BinaryStep(ts: seq<TK.Token>, p: nat, minBp: nat, lhs: Expr, op: Operator, rhs: Expr, q: nat)
    requires P.InStream(ts, p) && TryFromToken(ts[p]) == Ok(op) && InfixBindingPower(op).Some?
    requires minBp <= InfixBindingPower(op).value.0
    requires p + 1 < |ts| && ExprBp(ts, p + 1, InfixBindingPower(op).value.1) == P.Done(rhs, q)
    ensures InfixLoop(ts, p, minBp, lhs) == InfixLoop(ts, q, minBp, Binary(op, lhs, rhs))
  {
  }

  /** A token written with an operator's kind converts to that operator. */
  lemma Converts(t: TK.Token, op: Operator)
    requires t.kind == Ast.OperatorKind(ToNew(op))
    ensures TryFromToken(t) == Ok(op)
  {
    Ast.TryFromTokenInvertsOperatorKind(t, ToNew(op));
    TryFromTokenAgrees(t);
    ToNewRoundTrips(TryFromToken(t).value, ToNew(op));
    ToNewRoundTrips(op, ToNew(op));
  }

  /** An operand followed by an operator too weak for `minBp` is complete. */
  lemma OperandBefore(ts: seq<TK.Token>, p: nat, minBp: nat, op: Operator)
    requires P.InStream(ts, p) && ts[p].kind == TK.Identifier
    requires p + 1 < |ts| && ts[p + 1].kind == Ast.OperatorKind(ToNew(op)) && IsInfix(op)
    requires InfixBindingPower(op).value.0 < minBp
    ensures ExprBp(ts, p, minBp) == P.Done(Identifier(Name(ts, p)), p + 1)
  {
    IdentifierOperand(ts, p, minBp);
    Converts(ts[p + 1], op);
    LoopStops(ts, p + 1, minBp, Identifier(Name(ts, p)));
  }

  /** `b op c` before `Eof`, parsed at a binding power the operator reaches, is one binary node. */
  lemma TrailingOperation(ts: seq<TK.Token>, op: Operator, minBp: nat)
    requires P.WellFormed(ts) && |ts| == 6
    requires ts[2].kind == TK.Identifier && ts[4].kind == TK.Identifier
    requires ts[3].kind == Ast.OperatorKind(ToNew(op)) && IsInfix(op)
    requires minBp <= InfixBindingPower(op).value.0
    ensures ExprBp(ts, 2, minBp) == P.Done(Binary(op, Identifier(Name(ts, 2)), Identifier(Name(ts, 4))), 5)
  {
    OperandAtEnd(ts, 4, InfixBindingPower(op).value.1);
    IdentifierOperand(ts, 2, minBp);
    FinalOperation(ts, 3, minBp, op, Identifier(Name(ts, 2)), Identifier(Name(ts, 4)));
  }

  /**
   * Precedence and associativity over every pair of infix operators, `=`
   * included: `a o1 b o2 c` groups as `a o1 (b o2 c)` exactly when the
   * ladder says so, and as `(a o1 b) o2 c` otherwise, as in the newer parser.
   */
  lemma PrecedenceAndAssociativity(ts: seq<TK.Token>, o1: Operator, o2: Operator)
    requires P.WellFormed(ts) && |ts| == 6
    requires ts[0].kind == TK.Identifier && ts[2].kind == TK.Identifier && ts[4].kind == TK.Identifier
    requires ts[1].kind == Ast.OperatorKind(ToNew(o1)) && ts[3].kind == Ast.OperatorKind(ToNew(o2))
    requires IsInfix(o1) && IsInfix(o2)
    ensures Ast.GroupsRight(ToNew(o1), ToNew(o2)) ==>
      (ExprBp(ts, 0, 0) ==
        P.Done(Binary(o1, Identifier(Name(ts, 0)), Binary(o2, Identifier(Name(ts, 2)), Identifier(Name(ts, 4)))), 5))
    ensures !Ast.GroupsRight(ToNew(o1), ToNew(o2)) ==>
      (ExprBp(ts, 0, 0) ==
        P.Done(Binary(o2, Binary(o1, Identifier(Name(ts, 0)), Identifier(Name(ts, 2))), Identifier(Name(ts, 4))), 5))
  {
    TablesAgree(o1);
    TablesAgree(o2);
    Ast.GroupingFollowsPowers(ToNew(o1), ToNew(o2));
    if Ast.GroupsRight(ToNew(o1), ToNew(o2)) {
      GroupedRight(ts, o1, o2);
    } else {
      GroupedLeft(ts, o1, o2);
    }
  }

  lemma GroupedRight(ts: seq<TK.Token>, o1: Operator, o2: Operator)
    requires P.WellFormed(ts) && |ts| == 6
    requires ts[0].kind == TK.Identifier && ts[2].kind == TK.Identifier && ts[4].kind == TK.Identifier
    requires ts[1].kind == Ast.OperatorKind(ToNew(o1)) && ts[3].kind == Ast.OperatorKind(ToNew(o2))
    requires IsInfix(o1) && IsInfix(o2)
    requires InfixBindingPower(o1).value.1 <= InfixBindingPower(o2).value.0
    ensures ExprBp(ts, 0, 0) ==
      P.Done(Binary(o1, Identifier(Name(ts, 0)), Binary(o2, Identifier(Name(ts, 2)), Identifier(Name(ts, 4)))), 5)
  {
    var a, b, c := Identifier(Name(ts, 0)), Identifier(Name(ts, 2)), Identifier(Name(ts, 4));
    TrailingOperation(ts, o2, InfixBindingPower(o1).value.1);
    IdentifierOperand(ts, 0, 0);
    FinalOperation(ts, 1, 0, o1, a, Binary(o2, b, c));
  }

  lemma GroupedLeft(ts: seq<TK.Token>, o1: Operator, o2: Operator)
    requires P.WellFormed(ts) && |ts| == 6
    requires ts[0].kind == TK.Identifier && ts[2].kind == TK.Identifier && ts[4].kind == TK.Identifier
    requires ts[1].kind == Ast.OperatorKind(ToNew(o1)) && ts[3].kind == Ast.OperatorKind(ToNew(o2))
    requires IsInfix(o1) && IsInfix(o2)
    requires InfixBindingPower(o2).value.0 < InfixBindingPower(o1).value.1
    ensures ExprBp(ts, 0, 0) ==
      P.Done(Binary(o2, Binary(o1, Identifier(Name(ts, 0)), Identifier(Name(ts, 2))), Identifier(Name(ts, 4))), 5)
  {
    var a, b, c := Identifier(Name(ts, 0)), Identifier(Name(ts, 2)), Identifier(Name(ts, 4));
    IdentifierOperand(ts, 0, 0);
    LeadingOperation(ts, o1, o2);
    OperandAtEnd(ts, 4, InfixBindingPower(o2).value.1);
    FinalOperation(ts, 3, 0, o2, Binary(o1, a, b), c);
  }

  /** `a o1 b` before a weaker `o2`: the loop at level 0 goes on with `a o1 b` as its left side. */
  lemma LeadingOperation(ts: seq<TK.Token>, o1: Operator, o2: Operator)
    requires P.WellFormed(ts) && |ts| == 6
    requires ts[2].kind == TK.Identifier
    requires ts[1].kind == Ast.OperatorKind(ToNew(o1)) && ts[3].kind == Ast.OperatorKind(ToNew(o2))
    requires IsInfix(o1) && IsInfix(o2)
    requires InfixBindingPower(o2).value.0 < InfixBindingPower(o1).value.1
    ensures InfixLoop(ts, 1, 0, Identifier(Name(ts, 0))) ==
      InfixLoop(ts, 3, 0, Binary(o1, Identifier(Name(ts, 0)), Identifier(Name(ts, 2))))
  {
    OperandBefore(ts, 2, InfixBindingPower(o1).value.1, o2);
    Converts(ts[1], o1);
    BinaryStep(ts, 1, 0, Identifier(Name(ts, 0)), o1, Identifier(Name(ts, 2)), 3);
  }

  /** The last operator before `Eof`, whose right operand runs to the end, closes the expression. */
  lemma FinalOperation(ts: seq<TK.Token>, p: nat, minBp: nat, op: Operator, lhs: Expr, rhs: Expr)
    requires P.WellFormed(ts) && p + 1 < |ts| && ts[p].kind == Ast.OperatorKind(ToNew(op)) && IsInfix(op)
    requires minBp <= InfixBindingPower(op).value.0
    requires ExprBp(ts, p + 1, InfixBindingPower(op).value.1) == P.Done(rhs, |ts| - 1)
    ensures InfixLoop(ts, p, minBp, lhs) == P.Done(Binary(op, lhs, rhs), |ts| - 1)
  {
    Converts(ts[p], op);
    BinaryStep(ts, p, minBp, lhs, op, rhs, |ts| - 1);
    LoopStops(ts, |ts| - 1, minBp, Binary(op, lhs, rhs));
  }

  /** A lone operand before `Eof` is the whole expression at every binding power. */
  lemma OperandAtEnd(ts: seq<TK.Token>, p: nat, minBp: nat)
    requires P.WellFormed(ts) && p + 2 == |ts| && ts[p].kind == TK.Identifier
    ensures ExprBp(ts, p, minBp) == P.Done(Identifier(Name(ts, p)), p + 1)
  {
    IdentifierOperand(ts, p, minBp);
    LoopStops(ts, p + 1, minBp, Identifier(Name(ts, p)));
  }

  /** `a = b = c`: `=` is a right-associative binary operator here, with no assignment node. */
  lemma AssignmentIsBinary(ts: seq<TK.Token>)
    requires P.WellFormed(ts) && |ts| == 6
    requires ts[0].kind == TK.Identifier && ts[1].kind == TK.Equal && ts[2].kind == TK.Identifier
    requires ts[3].kind == TK.Equal && ts[4].kind == TK.Identifier
    ensures ExprBp(ts, 0, 0) ==
      P.Done(Binary(Operator.Assign, Identifier(Name(ts, 0)),
                    Binary(Operator.Assign, Identifier(Name(ts, 2)), Identifier(Name(ts, 4)))), 5)
  {
    var a, b, c := Identifier(Name(ts, 0)), Identifier(Name(ts, 2)), Identifier(Name(ts, 4));
    OperandAtEnd(ts, 4, 1);
    IdentifierOperand(ts, 2, 1);
    BinaryStep(ts, 3, 1, b, Operator.Assign, c, 5);
    LoopStops(ts, 5, 1, Binary(Operator.Assign, b, c));
    IdentifierOperand(ts, 0, 0);
    BinaryStep(ts, 1, 0, a, Operator.Assign, Binary(Operator.Assign, b, c), 5);
    LoopStops(ts, 5, 0, Binary(Operator.Assign, a, Binary(Operator.Assign, b, c)));
  }

  /** `a + b = c`: accepted, as an assignment whose left side is the sum. */
  lemma AssignmentToSumAccepted(ts: seq<TK.Token>)
    requires P.WellFormed(ts) && |ts| == 6
    requires ts[0].kind == TK.Identifier && ts[1].kind == TK.Plus && ts[2].kind == TK.Identifier
    requires ts[3].kind == TK.Equal && ts[4].kind == TK.Identifier
    ensures ExprBp(ts, 0, 0) ==
      P.Done(Binary(Operator.Assign, Binary(Add, Identifier(Name(ts, 0)), Identifier(Name(ts, 2))),
                    Identifier(Name(ts, 4))), 5)
  {
    var a, b, c := Identifier(Name(ts, 0)), Identifier(Name(ts, 2)), Identifier(Name(ts, 4));
    IdentifierOperand(ts, 0, 0);
    LeadingOperation(ts, Add, Operator.Assign);
    OperandAtEnd(ts, 4, 1);
    FinalOperation(ts, 3, 0, Operator.Assign, Binary(Add, a, b), c);
  }

  /** `let <name> = <number>;` with the initializer's text already known to convert. */
  lemma NumberDecl(ts: seq<TK.Token>, n: real)
    requires P.WellFormed(ts) && |ts| == 6
    requires ts[0].kind == TK.Let && ts[2].kind == TK.Equal && ts[3].kind == TK.Number
    requires ts[4].kind == TK.Semicolon
    requires Numerals.ParseNumber(Name(ts, 3)) == Some(n)
    ensures Parse(ts) == P.Done(VarDecl(Name(ts, 1), Some(Literal(Number(n)))), 5)
  {
    assert ParseStmt(ts, 0) == ParseVarDecl(ts, 0);
    LoopStops(ts, 4, 0, Literal(Number(n)));
    assert ExprBp(ts, 3, 0) == P.Done(Literal(Number(n)), 4);
  }

  /** The tokens of "let x = 10;" form a stream of the shape `NumberDecl` reads, under either reading. */
  lemma VarDeclShape(src: string, ends: OS.Ends)
    requires src == "let x = 10;"
    ensures var ts := OldScannerExamples.VarDeclTokens(src, ends);
      && P.WellFormed(ts) && |ts| == 6
      && ts[0].kind == TK.Let && ts[2].kind == TK.Equal && ts[3].kind == TK.Number
      && ts[4].kind == TK.Semicolon
  {
  }

  lemma NamesAsWritten(src: string)
    requires src == "let x = 10;"
    ensures var ts := OldScannerExamples.VarDeclTokens(src, OS.AsWritten);
      Name(ts, 1) == "" && Name(ts, 3) == "1"
  {
    VarDeclShape(src, OS.AsWritten);
  }

  lemma NamesExclusive(src: string)
    requires src == "let x = 10;"
    ensures var ts := OldScannerExamples.VarDeclTokens(src, OS.Exclusive);
      Name(ts, 1) == "x" && Name(ts, 3) == "10"
  {
    VarDeclShape(src, OS.Exclusive);
  }

  /**
   * "let x = 10;" through the older scanner as written: every span stops
   * one character short, so the name is "" and the literal is 1.
   */
  lemma VarDeclAsWritten(src: string)
    requires src == "let x = 10;"
    ensures Parse(OldScannerExamples.VarDeclTokens(src, OS.AsWritten)) ==
      P.Done(VarDecl("", Some(Literal(Number(1.0)))), 5)
  {
    VarDeclShape(src, OS.AsWritten);
    NamesAsWritten(src);
    Numerals.ParseDecimal(1);
    assert Numerals.Decimal(1) == "1";
    NumberDecl(OldScannerExamples.VarDeclTokens(src, OS.AsWritten), 1.0);
  }

  /** The same declaration with exclusive span ends: the name and literal the source spells. */
  lemma VarDeclExclusive(src: string)
    requires src == "let x = 10;"
    ensures Parse(OldScannerExamples.VarDeclTokens(src, OS.Exclusive)) ==
      P.Done(VarDecl("x", Some(Literal(Number(10.0)))), 5)
  {
    VarDeclShape(src, OS.Exclusive);
    NamesExclusive(src);
    Numerals.ParseExamples();
    NumberDecl(OldScannerExamples.VarDeclTokens(src, OS.Exclusive), 10.0);
  }
}

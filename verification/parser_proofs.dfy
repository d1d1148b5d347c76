/**
 * Properties of the newer parser that relate several of its functions,
 * and worked examples over token streams of a given shape. The examples
 * fix only the token kinds; names are whatever text the spans cover.
 */
module ParserProofs {
  import opened Wrappers
  import opened Ast
  import opened Parser
  import Values
  import TK = Tokens

  /** The text of the identifier token at `i`. */
  function Name(ts: seq<TK.Token>, i: nat): string
    requires WellFormed(ts) && i < |ts|
  {
    TK.Slice(ts[i].span)
  }

  /** `let` followed by anything but an identifier, as in `let 5 = 3;`, is reported at that token. */
  lemma LetNeedsIdentifier(ts: seq<TK.Token>, p: nat)
    requires InStream(ts, p) && ts[p].kind == TK.Let
    requires p + 1 < |ts| && ts[p + 1].kind != TK.Identifier
    ensures Parser.Decl(ts, p) == Fail(ParseError(ts[p + 1].span, ExpectedGot(Plain(TK.Identifier), QuoteMaybe(ts[p + 1].kind))))
  {
    assert Parser.Decl(ts, p) == VarDecl(ts, p);
    assert Expect(ts, p, TK.Let) == Done(ts[p], p + 1);
  }

  /** A block whose declarations run into `Eof` is reported as a missing `}` at the `Eof`. */
  lemma UnclosedBlockFails(ts: seq<TK.Token>, p: nat)
    requires InStream(ts, p) && ts[p].kind == TK.LBrace
    requires p + 1 < |ts| && BlockLoop(ts, p + 1).Done?
    requires ts[BlockLoop(ts, p + 1).rest].kind == TK.Eof
    ensures var eof := ts[BlockLoop(ts, p + 1).rest];
      Parser.Block(ts, p) == Fail(ParseError(eof.span, ExpectedGot(Quoted(TK.RBrace), Plain(TK.Eof))))
  {
    var q := BlockLoop(ts, p + 1).rest;
    assert Expect(ts, q, TK.RBrace).Fail?;
  }

  /** `{` directly followed by the end of input. */
  lemma EmptyUnclosedBlock(ts: seq<TK.Token>)
    requires WellFormed(ts) && |ts| == 2 && ts[0].kind == TK.LBrace
    ensures Parser.Stmt(ts, 0) == Fail(ParseError(ts[1].span, ExpectedGot(Quoted(TK.RBrace), Plain(TK.Eof))))
  {
    assert BlockLoop(ts, 1) == Done([], 1);
    UnclosedBlockFails(ts, 0);
  }

  /** Parameters are not separated by commas: `func f(a, b)` stops at the comma. */
  lemma CommaInParameters(ts: seq<TK.Token>)
    requires WellFormed(ts) && |ts| > 5
    requires ts[0].kind == TK.Func && ts[1].kind == TK.Identifier && ts[2].kind == TK.LParen
    requires ts[3].kind == TK.Identifier && ts[4].kind == TK.Comma
    ensures Parser.Decl(ts, 0) == Fail(ParseError(ts[4].span, ExpectedGot(Plain(TK.Identifier), Quoted(TK.Comma))))
  {
    assert Params(ts, 4) == Fail(ParseError(ts[4].span, ExpectedGot(Plain(TK.Identifier), Quoted(TK.Comma))));
    assert Params(ts, 3) == Params(ts, 4);
    assert Parser.Decl(ts, 0) == FuncDecl(ts, 0);
  }

  /** The empty program has no declarations. */
  lemma EmptyScript(ts: seq<TK.Token>)
    requires WellFormed(ts) && |ts| == 1
    ensures Parse(ts) == Done(Script([]), 0)
  {
  }

  /* One step of `expr_bp` at a time, for composing the examples below. */

  lemma IdentifierOperand(ts: seq<TK.Token>, p: nat, minBp: nat)
    requires InStream(ts, p) && ts[p].kind == TK.Identifier
    ensures ExprBp(ts, p, minBp) == InfixLoop(ts, p + 1, minBp, Ast.Identifier(Name(ts, p)))
  {
  }

  lemma LoopStops(ts: seq<TK.Token>, p: nat, minBp: nat, lhs: Expr)
    requires InStream(ts, p) && !Continues(ts[p], minBp) && ts[p].kind != TK.Equal
    ensures InfixLoop(ts, p, minBp, lhs) == Done(lhs, p)
  {
  }

  lemma EndStops(ts: seq<TK.Token>, p: nat, minBp: nat, lhs: Expr)
    requires WellFormed(ts) && p + 1 == |ts|
    ensures InfixLoop(ts, p, minBp, lhs) == Done(lhs, p)
  {
    EofIsNoOperator(ts[p]);
    LoopStops(ts, p, minBp, lhs);
  }

  /** An operand followed by an operator too weak for `minBp` is complete. */
  lemma OperandBefore(ts: seq<TK.Token>, p: nat, minBp: nat, op: Operator)
    requires InStream(ts, p) && ts[p].kind == TK.Identifier
    requires p + 1 < |ts| && ts[p + 1].kind == OperatorKind(op) && op != Assign && IsInfix(op)
    requires InfixBindingPower(op).value.0 < minBp
    ensures ExprBp(ts, p, minBp) == Done(Ast.Identifier(Name(ts, p)), p + 1)
  {
    IdentifierOperand(ts, p, minBp);
    TryFromTokenInvertsOperatorKind(ts[p + 1], op);
    LoopStops(ts, p + 1, minBp, Ast.Identifier(Name(ts, p)));
  }

  /** An `=` left over after an operand parsed above binding power 0 is the unfinished path. */
  lemma StrayEqualPanics(ts: seq<TK.Token>, p: nat, minBp: nat, lhs: Expr)
    requires InStream(ts, p) && ts[p].kind == TK.Equal && minBp > 2
    ensures InfixLoop(ts, p, minBp, lhs) == Panic(Todo("invalid assignment target"))
  {
    assert TryFromToken(ts[p]) == Ok(Assign);
  }

  lemma BinaryStep(ts: seq<TK.Token>, p: nat, minBp: nat, lhs: Expr, op: Operator, rhs: Expr, q: nat)
    requires InStream(ts, p) && ts[p].kind == OperatorKind(op) && IsInfix(op)
    requires minBp <= InfixBindingPower(op).value.0 && !(minBp == 0 && op == Assign)
    requires p + 1 < |ts| && ExprBp(ts, p + 1, InfixBindingPower(op).value.1) == Done(rhs, q)
    ensures InfixLoop(ts, p, minBp, lhs) == InfixLoop(ts, q, minBp, Binary(op, lhs, rhs))
  {
    TryFromTokenInvertsOperatorKind(ts[p], op);
    assert Continues(ts[p], minBp);
  }

  /** A panic in the right operand is the panic of the whole loop. */
  lemma PanicStep(ts: seq<TK.Token>, p: nat, minBp: nat, lhs: Expr, op: Operator)
    requires InStream(ts, p) && ts[p].kind == OperatorKind(op) && IsInfix(op) && op != Assign
    requires minBp <= InfixBindingPower(op).value.0
    requires p + 1 < |ts| && ExprBp(ts, p + 1, InfixBindingPower(op).value.1).Panic?
    ensures InfixLoop(ts, p, minBp, lhs) == ExprBp(ts, p + 1, InfixBindingPower(op).value.1)
  {
    TryFromTokenInvertsOperatorKind(ts[p], op);
    assert Continues(ts[p], minBp);
  }

  lemma AssignStep(ts: seq<TK.Token>, p: nat, lhs: Expr, rhs: Expr, q: nat)
    requires InStream(ts, p) && ts[p].kind == TK.Equal
    requires p + 1 < |ts| && ExprBp(ts, p + 1, 0) == Done(rhs, q)
    ensures InfixLoop(ts, p, 0, lhs) == InfixLoop(ts, q, 0, Assignment(lhs, rhs))
  {
    assert TryFromToken(ts[p]) == Ok(Assign);
  }

  lemma PrefixStep(ts: seq<TK.Token>, p: nat, minBp: nat, op: Operator, operand: Expr, q: nat)
    requires InStream(ts, p) && ts[p].kind == OperatorKind(op) && IsPrefix(op)
    requires p + 1 < |ts| && ExprBp(ts, p + 1, PrefixBindingPower(op).value) == Done(operand, q)
    ensures ExprBp(ts, p, minBp) == InfixLoop(ts, q, minBp, Unary(op, operand))
  {
    TryFromTokenInvertsOperatorKind(ts[p], op);
    assert ExprBp(ts, p, minBp) == Prefix(ts, p, minBp);
  }

  /** A lone operand before `Eof` is the whole expression at every binding power. */
  lemma OperandAtEnd(ts: seq<TK.Token>, p: nat, minBp: nat)
    requires WellFormed(ts) && p + 2 == |ts| && ts[p].kind == TK.Identifier
    ensures ExprBp(ts, p, minBp) == Done(Ast.Identifier(Name(ts, p)), p + 1)
  {
    IdentifierOperand(ts, p, minBp);
    EndStops(ts, p + 1, minBp, Ast.Identifier(Name(ts, p)));
  }

  /**
   * The last three tokens before `Eof`, `b op c`, parsed at a binding power
   * the operator reaches, form one binary node.
   */
  lemma TrailingOperation(ts: seq<TK.Token>, op: Operator, minBp: nat)
    requires WellFormed(ts) && |ts| == 6
    requires ts[2].kind == TK.Identifier && ts[4].kind == TK.Identifier
    requires ts[3].kind == OperatorKind(op) && op != Assign && IsInfix(op)
    requires minBp <= InfixBindingPower(op).value.0
    ensures ExprBp(ts, 2, minBp) == Done(Binary(op, Ast.Identifier(Name(ts, 2)), Ast.Identifier(Name(ts, 4))), 5)
  {
    var b, c := Ast.Identifier(Name(ts, 2)), Ast.Identifier(Name(ts, 4));
    OperandAtEnd(ts, 4, InfixBindingPower(op).value.1);
    IdentifierOperand(ts, 2, minBp);
    BinaryStep(ts, 3, minBp, b, op, c, 5);
    EndStops(ts, 5, minBp, Binary(op, b, c));
  }

  /** `a + b * c`: multiplication binds tighter than addition. */
  lemma ProductBindsTighter(ts: seq<TK.Token>)
    requires WellFormed(ts) && |ts| == 6
    requires ts[0].kind == TK.Identifier && ts[1].kind == TK.Plus && ts[2].kind == TK.Identifier
    requires ts[3].kind == TK.Star && ts[4].kind == TK.Identifier
    ensures ExprBp(ts, 0, 0) ==
      Done(Binary(Add, Ast.Identifier(Name(ts, 0)),
                  Binary(Mul, Ast.Identifier(Name(ts, 2)), Ast.Identifier(Name(ts, 4)))), 5)
  {
    var a, b, c := Ast.Identifier(Name(ts, 0)), Ast.Identifier(Name(ts, 2)), Ast.Identifier(Name(ts, 4));
    TrailingOperation(ts, Mul, 14);
    IdentifierOperand(ts, 0, 0);
    BinaryStep(ts, 1, 0, a, Add, Binary(Mul, b, c), 5);
    EndStops(ts, 5, 0, Binary(Add, a, Binary(Mul, b, c)));
  }

  /** `a - b - c`: operators of one level group to the left. */
  lemma DifferenceGroupsLeft(ts: seq<TK.Token>)
    requires WellFormed(ts) && |ts| == 6
    requires ts[0].kind == TK.Identifier && ts[1].kind == TK.Minus && ts[2].kind == TK.Identifier
    requires ts[3].kind == TK.Minus && ts[4].kind == TK.Identifier
    ensures ExprBp(ts, 0, 0) ==
      Done(Binary(Sub, Binary(Sub, Ast.Identifier(Name(ts, 0)), Ast.Identifier(Name(ts, 2))),
                  Ast.Identifier(Name(ts, 4))), 5)
  {
    var a, b, c := Ast.Identifier(Name(ts, 0)), Ast.Identifier(Name(ts, 2)), Ast.Identifier(Name(ts, 4));
    OperandBefore(ts, 2, 14, Sub);
    OperandAtEnd(ts, 4, 14);
    IdentifierOperand(ts, 0, 0);
    BinaryStep(ts, 1, 0, a, Sub, b, 3);
    BinaryStep(ts, 3, 0, Binary(Sub, a, b), Sub, c, 5);
    EndStops(ts, 5, 0, Binary(Sub, Binary(Sub, a, b), c));
  }

  /** `a ** b ** c`: exponentiation groups to the right. */
  lemma PowerGroupsRight(ts: seq<TK.Token>)
    requires WellFormed(ts) && |ts| == 6
    requires ts[0].kind == TK.Identifier && ts[1].kind == TK.StarStar && ts[2].kind == TK.Identifier
    requires ts[3].kind == TK.StarStar && ts[4].kind == TK.Identifier
    ensures ExprBp(ts, 0, 0) ==
      Done(Binary(Exp, Ast.Identifier(Name(ts, 0)),
                  Binary(Exp, Ast.Identifier(Name(ts, 2)), Ast.Identifier(Name(ts, 4)))), 5)
  {
    var a, b, c := Ast.Identifier(Name(ts, 0)), Ast.Identifier(Name(ts, 2)), Ast.Identifier(Name(ts, 4));
    TrailingOperation(ts, Exp, 17);
    IdentifierOperand(ts, 0, 0);
    BinaryStep(ts, 1, 0, a, Exp, Binary(Exp, b, c), 5);
    EndStops(ts, 5, 0, Binary(Exp, a, Binary(Exp, b, c)));
  }

  /** `a = b = c`: assignment groups to the right and builds assignment nodes. */
  lemma AssignmentGroupsRight(ts: seq<TK.Token>)
    requires WellFormed(ts) && |ts| == 6
    requires ts[0].kind == TK.Identifier && ts[1].kind == TK.Equal && ts[2].kind == TK.Identifier
    requires ts[3].kind == TK.Equal && ts[4].kind == TK.Identifier
    ensures ExprBp(ts, 0, 0) ==
      Done(Assignment(Ast.Identifier(Name(ts, 0)),
                      Assignment(Ast.Identifier(Name(ts, 2)), Ast.Identifier(Name(ts, 4)))), 5)
  {
    var a, b, c := Ast.Identifier(Name(ts, 0)), Ast.Identifier(Name(ts, 2)), Ast.Identifier(Name(ts, 4));
    OperandAtEnd(ts, 4, 0);
    IdentifierOperand(ts, 2, 0);
    AssignStep(ts, 3, b, c, 5);
    EndStops(ts, 5, 0, Assignment(b, c));
    IdentifierOperand(ts, 0, 0);
    AssignStep(ts, 1, a, Assignment(b, c), 5);
    EndStops(ts, 5, 0, Assignment(a, Assignment(b, c)));
  }

  /**
   * Precedence and associativity over every pair of infix operators other
   * than `=`: `a o1 b o2 c` groups as `a o1 (b o2 c)` exactly when the
   * ladder says so, and as `(a o1 b) o2 c` otherwise.
   */
  lemma PrecedenceAndAssociativity(ts: seq<TK.Token>, o1: Operator, o2: Operator)
    requires WellFormed(ts) && |ts| == 6
    requires ts[0].kind == TK.Identifier && ts[2].kind == TK.Identifier && ts[4].kind == TK.Identifier
    requires ts[1].kind == OperatorKind(o1) && ts[3].kind == OperatorKind(o2)
    requires IsInfix(o1) && IsInfix(o2) && o1 != Assign && o2 != Assign
    ensures GroupsRight(o1, o2) ==>
      (ExprBp(ts, 0, 0) ==
        Done(Binary(o1, Ast.Identifier(Name(ts, 0)),
                    Binary(o2, Ast.Identifier(Name(ts, 2)), Ast.Identifier(Name(ts, 4)))), 5))
    ensures !GroupsRight(o1, o2) ==>
      (ExprBp(ts, 0, 0) ==
        Done(Binary(o2, Binary(o1, Ast.Identifier(Name(ts, 0)), Ast.Identifier(Name(ts, 2))),
                    Ast.Identifier(Name(ts, 4))), 5))
  {
    GroupingFollowsPowers(o1, o2);
    if GroupsRight(o1, o2) {
      GroupedRight(ts, o1, o2);
    } else {
      GroupedLeft(ts, o1, o2);
    }
  }

  lemma GroupedRight(ts: seq<TK.Token>, o1: Operator, o2: Operator)
    requires WellFormed(ts) && |ts| == 6
    requires ts[0].kind == TK.Identifier && ts[2].kind == TK.Identifier && ts[4].kind == TK.Identifier
    requires ts[1].kind == OperatorKind(o1) && ts[3].kind == OperatorKind(o2)
    requires IsInfix(o1) && IsInfix(o2) && o1 != Assign && o2 != Assign
    requires InfixBindingPower(o1).value.1 <= InfixBindingPower(o2).value.0
    ensures ExprBp(ts, 0, 0) ==
      Done(Binary(o1, Ast.Identifier(Name(ts, 0)),
                  Binary(o2, Ast.Identifier(Name(ts, 2)), Ast.Identifier(Name(ts, 4)))), 5)
  {
    var a, b, c := Ast.Identifier(Name(ts, 0)), Ast.Identifier(Name(ts, 2)), Ast.Identifier(Name(ts, 4));
    TrailingOperation(ts, o2, InfixBindingPower(o1).value.1);
    IdentifierOperand(ts, 0, 0);
    BinaryStep(ts, 1, 0, a, o1, Binary(o2, b, c), 5);
    EndStops(ts, 5, 0, Binary(o1, a, Binary(o2, b, c)));
  }

  lemma GroupedLeft(ts: seq<TK.Token>, o1: Operator, o2: Operator)
    requires WellFormed(ts) && |ts| == 6
    requires ts[0].kind == TK.Identifier && ts[2].kind == TK.Identifier && ts[4].kind == TK.Identifier
    requires ts[1].kind == OperatorKind(o1) && ts[3].kind == OperatorKind(o2)
    requires IsInfix(o1) && IsInfix(o2) && o1 != Assign && o2 != Assign
    requires InfixBindingPower(o2).value.0 < InfixBindingPower(o1).value.1
    ensures ExprBp(ts, 0, 0) ==
      Done(Binary(o2, Binary(o1, Ast.Identifier(Name(ts, 0)), Ast.Identifier(Name(ts, 2))),
                  Ast.Identifier(Name(ts, 4))), 5)
  {
    var a, b, c := Ast.Identifier(Name(ts, 0)), Ast.Identifier(Name(ts, 2)), Ast.Identifier(Name(ts, 4));
    OperandBefore(ts, 2, InfixBindingPower(o1).value.1, o2);
    IdentifierOperand(ts, 0, 0);
    BinaryStep(ts, 1, 0, a, o1, b, 3);
    OperandAtEnd(ts, 4, InfixBindingPower(o2).value.1);
    BinaryStep(ts, 3, 0, Binary(o1, a, b), o2, c, 5);
    EndStops(ts, 5, 0, Binary(o2, Binary(o1, a, b), c));
  }

  /** `a = b o c`: the right side of an assignment is the whole rest of the expression. */
  lemma AssignmentTakesRest(ts: seq<TK.Token>, o: Operator)
    requires WellFormed(ts) && |ts| == 6
    requires ts[0].kind == TK.Identifier && ts[2].kind == TK.Identifier && ts[4].kind == TK.Identifier
    requires ts[1].kind == TK.Equal && ts[3].kind == OperatorKind(o) && IsInfix(o) && o != Assign
    ensures ExprBp(ts, 0, 0) ==
      Done(Assignment(Ast.Identifier(Name(ts, 0)),
                      Binary(o, Ast.Identifier(Name(ts, 2)), Ast.Identifier(Name(ts, 4)))), 5)
  {
    var a, b, c := Ast.Identifier(Name(ts, 0)), Ast.Identifier(Name(ts, 2)), Ast.Identifier(Name(ts, 4));
    TrailingOperation(ts, o, 0);
    IdentifierOperand(ts, 0, 0);
    AssignStep(ts, 1, a, Binary(o, b, c), 5);
    EndStops(ts, 5, 0, Assignment(a, Binary(o, b, c)));
  }

  /**
   * `a o b = c`: after any other operator, the `=` is left over from an
   * operand parsed above binding power 0, the unfinished path.
   */
  lemma AssignmentAfterOperatorPanics(ts: seq<TK.Token>, o: Operator)
    requires WellFormed(ts) && |ts| == 6
    requires ts[0].kind == TK.Identifier && ts[2].kind == TK.Identifier && ts[4].kind == TK.Identifier
    requires ts[1].kind == OperatorKind(o) && IsInfix(o) && o != Assign && ts[3].kind == TK.Equal
    ensures ExprBp(ts, 0, 0) == Panic(Todo("invalid assignment target"))
  {
    var r := InfixBindingPower(o).value.1;
    IdentifierOperand(ts, 2, r);
    StrayEqualPanics(ts, 3, r, Ast.Identifier(Name(ts, 2)));
    IdentifierOperand(ts, 0, 0);
    PanicStep(ts, 1, 0, Ast.Identifier(Name(ts, 0)), o);
  }

  /**
   * `true = x`: at binding power 0 any operand is taken as an assignment
   * target; only an `=` left over above level 0 is reported.
   */
  lemma LiteralTargetAccepted(ts: seq<TK.Token>)
    requires WellFormed(ts) && |ts| == 4
    requires ts[0].kind == TK.True && ts[1].kind == TK.Equal && ts[2].kind == TK.Identifier
    ensures ExprBp(ts, 0, 0) == Done(Assignment(Literal(Values.Bool(true)), Ast.Identifier(Name(ts, 2))), 3)
  {
    var x := Ast.Identifier(Name(ts, 2));
    assert ExprBp(ts, 0, 0) == InfixLoop(ts, 1, 0, Literal(Values.Bool(true)));
    OperandAtEnd(ts, 2, 0);
    AssignStep(ts, 1, Literal(Values.Bool(true)), x, 3);
    EndStops(ts, 3, 0, Assignment(Literal(Values.Bool(true)), x));
  }

  /** `not a == b`: `not` takes the whole equality as its operand. */
  lemma NotTakesEquality(ts: seq<TK.Token>)
    requires WellFormed(ts) && |ts| == 5
    requires ts[0].kind == TK.Not && ts[1].kind == TK.Identifier && ts[2].kind == TK.EqualEqual
    requires ts[3].kind == TK.Identifier
    ensures ExprBp(ts, 0, 0) ==
      Done(Unary(Not, Binary(Eq, Ast.Identifier(Name(ts, 1)), Ast.Identifier(Name(ts, 3)))), 4)
  {
    var a, b := Ast.Identifier(Name(ts, 1)), Ast.Identifier(Name(ts, 3));
    EqualityOperand(ts);
    PrefixStep(ts, 0, 0, Not, Binary(Eq, a, b), 4);
    EndStops(ts, 4, 0, Unary(Not, Binary(Eq, a, b)));
  }

  lemma EqualityOperand(ts: seq<TK.Token>)
    requires WellFormed(ts) && |ts| == 5
    requires ts[1].kind == TK.Identifier && ts[2].kind == TK.EqualEqual && ts[3].kind == TK.Identifier
    ensures ExprBp(ts, 1, 7) == Done(Binary(Eq, Ast.Identifier(Name(ts, 1)), Ast.Identifier(Name(ts, 3))), 4)
  {
    var a, b := Ast.Identifier(Name(ts, 1)), Ast.Identifier(Name(ts, 3));
    OperandAtEnd(ts, 3, 10);
    IdentifierOperand(ts, 1, 7);
    BinaryStep(ts, 2, 7, a, Eq, b, 4);
    EndStops(ts, 4, 7, Binary(Eq, a, b));
  }

  /** `not a and b`: `not` stops before `and`. */
  lemma NotStopsBeforeAnd(ts: seq<TK.Token>)
    requires WellFormed(ts) && |ts| == 5
    requires ts[0].kind == TK.Not && ts[1].kind == TK.Identifier && ts[2].kind == TK.And
    requires ts[3].kind == TK.Identifier
    ensures ExprBp(ts, 0, 0) ==
      Done(Binary(And, Unary(Not, Ast.Identifier(Name(ts, 1))), Ast.Identifier(Name(ts, 3))), 4)
  {
    var a, b := Ast.Identifier(Name(ts, 1)), Ast.Identifier(Name(ts, 3));
    OperandBefore(ts, 1, 7, And);
    PrefixStep(ts, 0, 0, Not, a, 2);
    OperandAtEnd(ts, 3, 6);
    BinaryStep(ts, 2, 0, Unary(Not, a), And, b, 4);
    EndStops(ts, 4, 0, Binary(And, Unary(Not, a), b));
  }

  /** `- a ** b`: unary minus binds tighter than `**`. */
  lemma NegationBindsTighterThanPower(ts: seq<TK.Token>)
    requires WellFormed(ts) && |ts| == 5
    requires ts[0].kind == TK.Minus && ts[1].kind == TK.Identifier && ts[2].kind == TK.StarStar
    requires ts[3].kind == TK.Identifier
    ensures ExprBp(ts, 0, 0) ==
      Done(Binary(Exp, Unary(Sub, Ast.Identifier(Name(ts, 1))), Ast.Identifier(Name(ts, 3))), 4)
  {
    var a, b := Ast.Identifier(Name(ts, 1)), Ast.Identifier(Name(ts, 3));
    OperandBefore(ts, 1, 19, Exp);
    PrefixStep(ts, 0, 0, Sub, a, 2);
    OperandAtEnd(ts, 3, 17);
    BinaryStep(ts, 2, 0, Unary(Sub, a), Exp, b, 4);
    EndStops(ts, 4, 0, Binary(Exp, Unary(Sub, a), b));
  }

  /** `a + b = c`: the `=` is left after an operand parsed above binding power 0, an unfinished path. */
  lemma AssignmentToSumPanics(ts: seq<TK.Token>)
    requires WellFormed(ts) && |ts| == 6
    requires ts[0].kind == TK.Identifier && ts[1].kind == TK.Plus && ts[2].kind == TK.Identifier
    requires ts[3].kind == TK.Equal && ts[4].kind == TK.Identifier
    ensures ExprBp(ts, 0, 0) == Panic(Todo("invalid assignment target"))
  {
    var a, b := Ast.Identifier(Name(ts, 0)), Ast.Identifier(Name(ts, 2));
    IdentifierOperand(ts, 2, 14);
    StrayEqualPanics(ts, 3, 14, b);
    IdentifierOperand(ts, 0, 0);
    PanicStep(ts, 1, 0, a, Add);
  }
}

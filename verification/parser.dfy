/**
 * The newer recursive-descent parser with precedence climbing for
 * expressions. It reads a finished token stream through a one-token peek
 * buffer; past the last token the stream keeps yielding its final `Eof`,
 * as the scanner does when called again at the end of input. Because the
 * buffer only ever holds the next token of the stream, the parsing
 * functions track the number of consumed tokens alone.
 */
module Parser {
  import opened Wrappers
  import opened Values
  import opened Ast
  import opened Numerals
  import TK = Tokens

  /** A stream the parser can read to its end: it finishes with `Eof` and every span lies in its source. */
  predicate WellFormed(ts: seq<TK.Token>) {
    && |ts| > 0 && ts[|ts| - 1].kind == TK.Eof
    && forall i :: 0 <= i < |ts| ==> ts[i].span.Valid()
  }

  /** The k-th token the scanner yields: the final `Eof` repeats forever. */
  function StreamAt(ts: seq<TK.Token>, k: nat): TK.Token
    requires |ts| > 0
  {
    if k < |ts| then ts[k] else ts[|ts| - 1]
  }

  /**
   * The parser's peek buffer: how many tokens it has pulled from the
   * scanner, and the token `peek` pulled but nobody consumed yet.
   */
  datatype State = State(scanned: nat, peeked: Option<TK.Token>)

  /** The number of tokens consumed so far. */
  function Pos(p: State): nat {
    if p.peeked.Some? && p.scanned > 0 then p.scanned - 1 else p.scanned
  }

  /** A peeked token is always the last one pulled from the scanner. */
  predicate Buffered(ts: seq<TK.Token>, p: State) {
    && |ts| > 0
    && (p.peeked.Some? ==> p.scanned >= 1 && p.peeked.value == StreamAt(ts, p.scanned - 1))
  }

  /** `advance`: hand out the peeked token if there is one, otherwise pull a fresh one. */
  function Advance(ts: seq<TK.Token>, p: State): (r: (TK.Token, State))
    requires Buffered(ts, p)
    ensures r.0 == StreamAt(ts, Pos(p)) && Pos(r.1) == Pos(p) + 1
    ensures Buffered(ts, r.1) && r.1.peeked.None?
  {
    match p.peeked
    case Some(t) => (t, State(p.scanned, None))
    case None => (StreamAt(ts, p.scanned), State(p.scanned + 1, None))
  }

  /** `peek`: look at the next token, pulling it into the buffer if needed, without consuming it. */
  function Peek(ts: seq<TK.Token>, p: State): (r: (TK.Token, State))
    requires Buffered(ts, p)
    ensures r.0 == StreamAt(ts, Pos(p)) && Pos(r.1) == Pos(p)
    ensures Buffered(ts, r.1) && r.1.peeked == Some(r.0)
  {
    match p.peeked
    case Some(t) => (t, p)
    case None =>
      var t := StreamAt(ts, p.scanned);
      (t, State(p.scanned + 1, Some(t)))
  }

  /**
   * Peeking is transparent: after any number of `peek` calls, `advance`
   * yields the token and position it would have yielded without them.
   */
  lemma {:induction false} PeeksAreTransparent(ts: seq<TK.Token>, p: State, n: nat)
    requires Buffered(ts, p)
    ensures Advance(ts, Peeks(ts, p, n)) == (StreamAt(ts, Pos(p)), Advance(ts, p).1)
    decreases n
  {
    if n > 0 {
      PeeksAreTransparent(ts, Peek(ts, p).1, n - 1);
    }
  }

  /** The buffer after `n` consecutive `peek` calls. */
  function Peeks(ts: seq<TK.Token>, p: State, n: nat): (q: State)
    requires Buffered(ts, p)
    ensures Buffered(ts, q) && Pos(q) == Pos(p)
    ensures n > 0 ==> q.peeked == Some(StreamAt(ts, Pos(p)))
    decreases n
  {
    if n == 0 then p else Peeks(ts, Peek(ts, p).1, n - 1)
  }

  /** A parser panic: a `todo!` reached, or a failed `unwrap`. */
  datatype Halt = Todo(note: string) | UnwrapFailed

  /**
   * The result of a parsing function: the value and the number of tokens
   * consumed so far, the first error, or a panic.
   */
  datatype Outcome<T> = Done(value: T, rest: nat) | Fail(error: ParseError) | Panic(halt: Halt)

  /** A position before the final `Eof` or at it: the parser never consumes `Eof` and goes on. */
  predicate InStream(ts: seq<TK.Token>, p: nat) {
    WellFormed(ts) && p < |ts|
  }

  /** A successful parse consumed at least one token and stopped inside the stream. */
  predicate Consumed<T>(ts: seq<TK.Token>, p: nat, r: Outcome<T>) {
    r.Done? ==> p < r.rest < |ts|
  }

  /** A successful parse stopped inside the stream, no earlier than it started. */
  predicate Kept<T>(ts: seq<TK.Token>, p: nat, r: Outcome<T>) {
    r.Done? ==> p <= r.rest < |ts|
  }

  /** A token that is not `Eof` is not the last one, so consuming it keeps the parser inside the stream. */
  lemma NonEofHasSuccessor(ts: seq<TK.Token>, p: nat)
    requires InStream(ts, p) && ts[p].kind != TK.Eof
    ensures p + 1 < |ts|
  {
  }

  /** `advance_if`: consume the next token when it has kind `k`. */
  function AdvanceIf(ts: seq<TK.Token>, p: nat, k: TK.TokenKind): (r: nat)
    requires InStream(ts, p) && k != TK.Eof
    ensures r == if ts[p].kind == k then p + 1 else p
    ensures r < |ts|
  {
    if ts[p].kind == k then p + 1 else p
  }

  /** `expect`: consume a token of kind `k`, or report what was found instead, at the token found. */
  function Expect(ts: seq<TK.Token>, p: nat, k: TK.TokenKind): (r: Outcome<TK.Token>)
    requires InStream(ts, p) && k != TK.Eof
    ensures !r.Panic?
    ensures r.Done? <==> ts[p].kind == k
    ensures r.Done? ==> r.value == ts[p] && r.rest == p + 1 && r.rest < |ts|
    ensures r.Fail? ==>
      r.error == ParseError(ts[p].span, ExpectedGot(QuoteMaybe(k), QuoteMaybe(ts[p].kind)))
  {
    var t := ts[p];
    if t.kind == k then Done(t, p + 1)
    else Fail(ParseError(t.span, ExpectedGot(QuoteMaybe(k), QuoteMaybe(t.kind))))
  }

  /** No `Binary` node carries the assignment operator. */
  predicate NoBinaryAssign(e: Expr) {
    match e
    case Literal(_) => true
    case Identifier(_) => true
    case Assignment(target, source) => NoBinaryAssign(target) && NoBinaryAssign(source)
    case Binary(op, lhs, rhs) => op != Assign && NoBinaryAssign(lhs) && NoBinaryAssign(rhs)
    case Unary(_, operand) => NoBinaryAssign(operand)
  }

  /** Binding powers `expr_bp` is ever called with: 0, or one above the assignment operator's. */
  predicate ReachablePower(minBp: nat) {
    minBp == 0 || minBp > 2
  }

  /** The token continues an expression parsed at `minBp`: an infix operator binding at least as tightly. */
  predicate Continues(t: TK.Token, minBp: nat) {
    && TryFromToken(t).Ok?
    && InfixBindingPower(TryFromToken(t).value).Some?
    && InfixBindingPower(TryFromToken(t).value).value.0 >= minBp
  }

  /** `parse`: the whole script, or the first error, or a panic. */
  function Parse(ts: seq<TK.Token>): (r: Outcome<Script>)
    requires WellFormed(ts)
    ensures r.Done? ==> r.rest < |ts| && ts[r.rest].kind == TK.Eof
  {
    match ScriptLoop(ts, 0)
    case Done(ds, q) => Done(Script(ds), q)
    case Fail(e) => Fail(e)
    case Panic(h) => Panic(h)
  }

  /** `script`: declarations until `Eof`. */
  function ScriptLoop(ts: seq<TK.Token>, p: nat): (r: Outcome<seq<Ast.Decl>>)
    requires InStream(ts, p)
    ensures Kept(ts, p, r)
    ensures r.Done? ==> ts[r.rest].kind == TK.Eof
    ensures r.Done? && ts[p].kind == TK.Eof ==> r.value == []
    decreases |ts| - p
  {
    if ts[p].kind == TK.Eof then Done([], p)
    else
      match Decl(ts, p)
      case Done(d, q) =>
        (match ScriptLoop(ts, q)
         case Done(ds, q') => Done([d] + ds, q')
         case Fail(e) => Fail(e)
         case Panic(h) => Panic(h))
      case Fail(e) => Fail(e)
      case Panic(h) => Panic(h)
  }

  /** `decl`: `let` starts a variable, `func` a function, anything else a statement. */
  function Decl(ts: seq<TK.Token>, p: nat): (r: Outcome<Ast.Decl>)
    requires InStream(ts, p)
    ensures Consumed(ts, p, r)
    ensures r.Done? ==> (r.value.Var? <==> ts[p].kind == TK.Let)
    ensures r.Done? ==> (r.value.Func? <==> ts[p].kind == TK.Func)
    decreases |ts| - p, 7
  {
    var k := ts[p].kind;
    if k == TK.Let then VarDecl(ts, p)
    else if k == TK.Func then FuncDecl(ts, p)
    else
      match Stmt(ts, p)
      case Done(s, q) => Done(StmtDecl(s), q)
      case Fail(e) => Fail(e)
      case Panic(h) => Panic(h)
  }

  /** `var_decl`: `let` name, an initializer exactly when `=` follows, then `;`. */
  function VarDecl(ts: seq<TK.Token>, p: nat): (r: Outcome<Ast.Decl>)
    requires InStream(ts, p)
    ensures Consumed(ts, p, r)
    ensures r.Done? ==> r.value.Var? && ts[r.rest - 1].kind == TK.Semicolon
    ensures r.Done? ==>
      && ts[p].kind == TK.Let && ts[p + 1].kind == TK.Identifier
      && r.value.name == TK.Slice(ts[p + 1].span)
      && (r.value.init.Some? <==> ts[p + 2].kind == TK.Equal)
    decreases |ts| - p, 6
  {
    match Expect(ts, p, TK.Let)
    case Fail(e) => Fail(e)
    case Done(_, q) =>
      match Expect(ts, q, TK.Identifier)
      case Fail(e) => Fail(e)
      case Done(nameTok, q1) =>
        var name := TK.Slice(nameTok.span);
        var q2 := AdvanceIf(ts, q1, TK.Equal);
        if q2 > q1 then
          match ExprBp(ts, q2, 0)
          case Done(init, q3) => Finish(ts, q3, Var(name, Some(init)))
          case Fail(e) => Fail(e)
          case Panic(h) => Panic(h)
        else
          Finish(ts, q2, Var(name, None))
  }

  /** Require the closing `;` of a declaration or statement and return `d`. */
  function Finish<T>(ts: seq<TK.Token>, p: nat, d: T): (r: Outcome<T>)
    requires InStream(ts, p)
    ensures Consumed(ts, p, r) && !r.Panic?
    ensures r.Done? ==> r.value == d && r.rest == p + 1 && ts[p].kind == TK.Semicolon
    ensures r.Fail? ==> r.error.span == ts[p].span
  {
    match Expect(ts, p, TK.Semicolon)
    case Done(_, q) => Done(d, q)
    case Fail(e) => Fail(e)
  }

  /** `func_decl`: `func` name `(` identifiers `)` then a block. */
  function FuncDecl(ts: seq<TK.Token>, p: nat): (r: Outcome<Ast.Decl>)
    requires InStream(ts, p)
    ensures Consumed(ts, p, r)
    ensures r.Done? ==> r.value.Func? && r.value.body.Block?
    ensures r.Done? ==> r.value.name == TK.Slice(ts[p + 1].span)
    decreases |ts| - p, 6
  {
    match Expect(ts, p, TK.Func)
    case Fail(e) => Fail(e)
    case Done(_, q) =>
      match Expect(ts, q, TK.Identifier)
      case Fail(e) => Fail(e)
      case Done(nameTok, q1) =>
        match Expect(ts, q1, TK.LParen)
        case Fail(e) => Fail(e)
        case Done(_, q2) => FuncRest(ts, q2, TK.Slice(nameTok.span))
  }

  /** After `func name (`: the parameters, `)`, then the body block. */
  function FuncRest(ts: seq<TK.Token>, p: nat, name: string): (r: Outcome<Ast.Decl>)
    requires InStream(ts, p)
    ensures Kept(ts, p, r)
    ensures r.Done? ==> r.value.Func? && r.value.body.Block? && r.value.name == name
    decreases |ts| - p, 6
  {
    match Params(ts, p)
    case Fail(e) => Fail(e)
    case Panic(h) => Panic(h)
    case Done(params, q) =>
      match Expect(ts, q, TK.RParen)
      case Fail(e) => Fail(e)
      case Done(_, q1) =>
        match Block(ts, q1)
        case Done(body, q2) => Done(Func(name, params, body), q2)
        case Fail(e) => Fail(e)
        case Panic(h) => Panic(h)
  }

  /** The tokens from `p` on are identifiers whose texts are `names`. */
  predicate NamesAt(ts: seq<TK.Token>, p: nat, names: seq<string>)
    requires WellFormed(ts)
    decreases |names|
  {
    if |names| == 0 then p <= |ts|
    else
      && p < |ts| && ts[p].kind == TK.Identifier && names[0] == TK.Slice(ts[p].span)
      && NamesAt(ts, p + 1, names[1..])
  }

  /**
   * The parameter list: identifiers until `)` or `Eof`, with no separator,
   * so any other token is reported as a missing identifier.
   */
  function Params(ts: seq<TK.Token>, p: nat): (r: Outcome<seq<string>>)
    requires InStream(ts, p)
    ensures Kept(ts, p, r) && !r.Panic?
    ensures r.Done? ==> ts[r.rest].kind in {TK.Eof, TK.RParen}
    ensures r.Done? ==> r.rest == p + |r.value| && NamesAt(ts, p, r.value)
    ensures r.Fail? ==> r.error.message.ExpectedGot? && r.error.message.expected == Plain(TK.Identifier)
    decreases |ts| - p
  {
    if ts[p].kind == TK.Eof || ts[p].kind == TK.RParen then Done([], p)
    else
      match Expect(ts, p, TK.Identifier)
      case Fail(e) => Fail(e)
      case Done(nameTok, q) =>
        match Params(ts, q)
        case Done(names, q1) =>
          NamesCons(ts, p, names);
          Done([TK.Slice(nameTok.span)] + names, q1)
        case Fail(e) => Fail(e)
  }

  lemma NamesCons(ts: seq<TK.Token>, p: nat, names: seq<string>)
    requires InStream(ts, p) && ts[p].kind == TK.Identifier && NamesAt(ts, p + 1, names)
    ensures NamesAt(ts, p, [TK.Slice(ts[p].span)] + names)
  {
    var all := [TK.Slice(ts[p].span)] + names;
    assert all[0] == TK.Slice(ts[p].span) && all[1..] == names;
  }

  /** `stmt`: `{` starts a block, `if` a conditional, anything else an expression statement. */
  function Stmt(ts: seq<TK.Token>, p: nat): (r: Outcome<Ast.Stmt>)
    requires InStream(ts, p)
    ensures Consumed(ts, p, r)
    ensures r.Done? ==> !r.value.Print?
    ensures r.Done? ==> (r.value.Block? <==> ts[p].kind == TK.LBrace)
    ensures r.Done? ==> (r.value.If? <==> ts[p].kind == TK.If)
    ensures r.Done? && r.value.If? && r.value.alternative.None? ==> ts[r.rest].kind != TK.Else
    decreases |ts| - p, 6
  {
    var k := ts[p].kind;
    if k == TK.LBrace then Block(ts, p)
    else if k == TK.If then If(ts, p)
    else ExprStmt(ts, p)
  }

  /** `block_stmt`: `{`, declarations until `}` or `Eof`, then `}`. */
  function Block(ts: seq<TK.Token>, p: nat): (r: Outcome<Ast.Stmt>)
    requires InStream(ts, p)
    ensures Consumed(ts, p, r)
    ensures r.Done? ==> r.value.Block? && ts[r.rest - 1].kind == TK.RBrace
    decreases |ts| - p, 5
  {
    match Expect(ts, p, TK.LBrace)
    case Fail(e) => Fail(e)
    case Done(_, q) =>
      match BlockLoop(ts, q)
      case Fail(e) => Fail(e)
      case Panic(h) => Panic(h)
      case Done(ds, q1) =>
        match Expect(ts, q1, TK.RBrace)
        case Done(_, q2) => Done(Ast.Block(ds), q2)
        case Fail(e) => Fail(e)
  }

  /** The declarations of a block, up to the first `}` or `Eof` at their level. */
  function BlockLoop(ts: seq<TK.Token>, p: nat): (r: Outcome<seq<Ast.Decl>>)
    requires InStream(ts, p)
    ensures Kept(ts, p, r)
    ensures r.Done? ==> ts[r.rest].kind in {TK.Eof, TK.RBrace}
    decreases |ts| - p, 8
  {
    if ts[p].kind == TK.Eof || ts[p].kind == TK.RBrace then Done([], p)
    else
      match Decl(ts, p)
      case Fail(e) => Fail(e)
      case Panic(h) => Panic(h)
      case Done(d, q) =>
        match BlockLoop(ts, q)
        case Done(ds, q1) => Done([d] + ds, q1)
        case Fail(e) => Fail(e)
        case Panic(h) => Panic(h)
  }

  /** `if_stmt`: condition, consequent, and an `else` branch taken greedily when `else` follows. */
  function If(ts: seq<TK.Token>, p: nat): (r: Outcome<Ast.Stmt>)
    requires InStream(ts, p)
    ensures Consumed(ts, p, r)
    ensures r.Done? ==> r.value.If?
    ensures r.Done? && r.value.alternative.None? ==> ts[r.rest].kind != TK.Else
    ensures r.Done? && r.value.consequent.If? && r.value.consequent.alternative.None? ==>
      r.value.alternative.None?
    decreases |ts| - p, 5
  {
    match Expect(ts, p, TK.If)
    case Fail(e) => Fail(e)
    case Done(_, q) =>
      match ExprBp(ts, q, 0)
      case Fail(e) => Fail(e)
      case Panic(h) => Panic(h)
      case Done(cond, q1) =>
        match Stmt(ts, q1)
        case Fail(e) => Fail(e)
        case Panic(h) => Panic(h)
        case Done(cons, q2) =>
          var q3 := AdvanceIf(ts, q2, TK.Else);
          if q3 > q2 then
            match Stmt(ts, q3)
            case Done(alt, q4) => Done(Ast.If(cond, cons, Some(alt)), q4)
            case Fail(e) => Fail(e)
            case Panic(h) => Panic(h)
          else
            Done(Ast.If(cond, cons, None), q3)
  }

  /** `expr_stmt`: an expression and its `;`. */
  function ExprStmt(ts: seq<TK.Token>, p: nat): (r: Outcome<Ast.Stmt>)
    requires InStream(ts, p)
    ensures Consumed(ts, p, r)
    ensures r.Done? ==> r.value.ExprStmt? && ts[r.rest - 1].kind == TK.Semicolon
    decreases |ts| - p, 5
  {
    match ExprBp(ts, p, 0)
    case Done(e, q) => Finish(ts, q, Ast.ExprStmt(e))
    case Fail(e) => Fail(e)
    case Panic(h) => Panic(h)
  }

  /**
   * `expr_bp`: one prefix form, then infix operators binding at least as
   * tightly as `minBp`. An expression ends before a token that cannot
   * continue it, and never before `=`.
   */
  function ExprBp(ts: seq<TK.Token>, p: nat, minBp: nat): (r: Outcome<Expr>)
    requires InStream(ts, p)
    ensures Consumed(ts, p, r)
    ensures r.Done? ==> !Continues(ts[r.rest], minBp) && ts[r.rest].kind != TK.Equal
    ensures r.Done? && ReachablePower(minBp) ==> NoBinaryAssign(r.value)
    decreases |ts| - p, 3
  {
    var t := ts[p];
    if t.kind == TK.Identifier then InfixLoop(ts, p + 1, minBp, Ast.Identifier(TK.Slice(t.span)))
    else if t.kind == TK.Number then
      match ParseNumber(TK.Slice(t.span))
      case Some(n) => InfixLoop(ts, p + 1, minBp, Literal(Number(n)))
      case None => Panic(UnwrapFailed)
    else if t.kind == TK.String then Panic(Todo(""))
    else if t.kind == TK.False then InfixLoop(ts, p + 1, minBp, Literal(Bool(false)))
    else if t.kind == TK.True then InfixLoop(ts, p + 1, minBp, Literal(Bool(true)))
    else if t.kind == TK.Nil then InfixLoop(ts, p + 1, minBp, Literal(Values.Nil))
    else if t.kind == TK.LParen then Group(ts, p, minBp)
    else Prefix(ts, p, minBp)
  }

  /** A parenthesised expression: it leaves no node of its own behind. */
  function Group(ts: seq<TK.Token>, p: nat, minBp: nat): (r: Outcome<Expr>)
    requires InStream(ts, p) && ts[p].kind == TK.LParen
    ensures Consumed(ts, p, r)
    ensures r.Done? ==> !Continues(ts[r.rest], minBp) && ts[r.rest].kind != TK.Equal
    ensures r.Done? && ReachablePower(minBp) ==> NoBinaryAssign(r.value)
    decreases |ts| - p, 2
  {
    match ExprBp(ts, p + 1, 0)
    case Fail(e) => Fail(e)
    case Panic(h) => Panic(h)
    case Done(inner, q) =>
      match Expect(ts, q, TK.RParen)
      case Done(_, q1) => InfixLoop(ts, q1, minBp, inner)
      case Fail(e) => Fail(e)
  }

  /**
   * Any other token in prefix position must be an operator; a prefix
   * operator takes an operand at its binding power, an infix-only one
   * reaches the unfinished error reporting.
   */
  function Prefix(ts: seq<TK.Token>, p: nat, minBp: nat): (r: Outcome<Expr>)
    requires InStream(ts, p)
    ensures Consumed(ts, p, r)
    ensures r.Done? ==> !Continues(ts[r.rest], minBp) && ts[r.rest].kind != TK.Equal
    ensures r.Done? && ReachablePower(minBp) ==> NoBinaryAssign(r.value)
    ensures ts[p].kind == TK.Eof ==> r.Fail?
    decreases |ts| - p, 2
  {
    match TryFromToken(ts[p])
    case Err(e) => Fail(e)
    case Ok(op) =>
      if PrefixBindingPower(op).Some? then
        match ExprBp(ts, p + 1, PrefixBindingPower(op).value)
        case Done(operand, q) => InfixLoop(ts, q, minBp, Unary(op, operand))
        case Fail(e) => Fail(e)
        case Panic(h) => Panic(h)
      else
        Panic(Todo("error reporting"))
  }

  /**
   * The infix loop of `expr_bp` with `lhs` parsed so far: go on while the
   * next token continues the expression; stop before anything else, but
   * reach the unfinished "invalid assignment target" report on `=`.
   */
  function InfixLoop(ts: seq<TK.Token>, p: nat, minBp: nat, lhs: Expr): (r: Outcome<Expr>)
    requires InStream(ts, p)
    ensures Kept(ts, p, r)
    ensures r.Done? ==> !Continues(ts[r.rest], minBp) && ts[r.rest].kind != TK.Equal
    ensures r.Done? && ReachablePower(minBp) && NoBinaryAssign(lhs) ==> NoBinaryAssign(r.value)
    decreases |ts| - p, 1
  {
    if Continues(ts[p], minBp) then InfixStep(ts, p, minBp, lhs)
    else if ts[p].kind == TK.Equal then Panic(Todo("invalid assignment target"))
    else Done(lhs, p)
  }

  /**
   * Consume the operator at `p` and its right operand. At `minBp` 0 an `=`
   * builds an assignment whose right side is a whole expression; every
   * other operator builds a binary node whose right side binds at the
   * operator's right binding power.
   */
  function InfixStep(ts: seq<TK.Token>, p: nat, minBp: nat, lhs: Expr): (r: Outcome<Expr>)
    requires InStream(ts, p) && Continues(ts[p], minBp)
    ensures Consumed(ts, p, r)
    ensures r.Done? ==> !Continues(ts[r.rest], minBp) && ts[r.rest].kind != TK.Equal
    ensures r.Done? && ReachablePower(minBp) && NoBinaryAssign(lhs) ==> NoBinaryAssign(r.value)
    decreases |ts| - p, 0
  {
    var op := TryFromToken(ts[p]).value;
    if minBp == 0 && op == Assign then
      match ExprBp(ts, p + 1, 0)
      case Done(rhs, q) => InfixLoop(ts, q, minBp, Assignment(lhs, rhs))
      case Fail(e) => Fail(e)
      case Panic(h) => Panic(h)
    else
      match ExprBp(ts, p + 1, InfixBindingPower(op).value.1)
      case Done(rhs, q) => InfixLoop(ts, q, minBp, Binary(op, lhs, rhs))
      case Fail(e) => Fail(e)
      case Panic(h) => Panic(h)
  }
}

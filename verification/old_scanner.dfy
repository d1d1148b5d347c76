/**
 * The older scanner, the one the interactive front end drives. It keeps the
 * index of the last character consumed in its `end` field and builds spans
 * from it, so its spans include their last character, while the token
 * definition documents `end` as exclusive. `Ends` selects between the code
 * as written and the exclusive reading its span type describes. The older
 * parser takes any token stream: its examples feed it the tokens of both
 * readings (`OldParserExamples.VarDeclAsWritten` and `VarDeclExclusive`).
 */
module OldScanner {
  import opened Chars
  import opened Wrappers
  import opened Tokens
  import opened Lexing
  import Scanner

  /** How a span's `end` is derived from the position after the token. */
  datatype Ends =
    | AsWritten  // the index of the last character consumed (inclusive)
    | Exclusive  // one past the last character, as `Span::slice` expects

  /** The `end` field: the index of the last character consumed, 0 before any. */
  function LastIndex(p: nat): nat {
    if p == 0 then 0 else p - 1
  }

  /** The span end for a token that stops just before position `next`. */
  function SpanEnd(next: nat, ends: Ends): nat {
    match ends
    case AsWritten => LastIndex(next)
    case Exclusive => next
  }

  /** The two-character operators of this scanner: `+=` is one, `!=` is not. */
  function PairKind(c: char, d: char): Option<TokenKind> {
    match (c, d)
    case ('+', '=') => Some(PlusEqual)
    case ('-', '=') => Some(MinusEqual)
    case ('*', '*') => Some(StarStar)
    case ('*', '=') => Some(StarEqual)
    case ('/', '=') => Some(SlashEqual)
    case ('%', '=') => Some(PercentEqual)
    case ('=', '=') => Some(EqualEqual)
    case ('<', '=') => Some(LessEqual)
    case ('>', '=') => Some(GreaterEqual)
    case _ => None
  }

  function Emit(src: string, start: nat, next: nat, kind: TokenKind, ends: Ends): Scanner.Step {
    Scanner.Step(Ok(Token(Span(src, start, SpanEnd(next, ends)), kind)), next)
  }

  function Fail(src: string, message: string, start: nat, next: nat, ends: Ends): Scanner.Step {
    Scanner.Step(Err(Scanner.ScanError(message, Span(src, start, SpanEnd(next, ends)))), next)
  }

  /** `Scanner::scan` from cursor position `pos`: skip whitespace, then read one token. */
  function Scan(src: string, pos: nat, ends: Ends): (r: Scanner.Step)
    requires pos <= |src|
    ensures pos <= r.pos <= |src|
    ensures var sp := r.SpanOf(); sp.source == src && sp.Valid()
    ensures var s := RunEnd(src, pos, Whitespace);
      && (s < |src| ==> r.pos > s && r.SpanOf() == Span(src, s, SpanEnd(r.pos, ends)))
      && (s == |src| ==> r == Emit(src, SpanEnd(s, ends), s, Eof, ends))
  {
    ScanAt(src, RunEnd(src, pos, Whitespace), ends)
  }

  /** The token (or error) that starts at `s`, once whitespace is skipped. */
  function ScanAt(src: string, s: nat, ends: Ends): (r: Scanner.Step)
    requires s <= |src|
    ensures s <= r.pos <= |src|
    ensures var sp := r.SpanOf(); sp.source == src && sp.Valid()
    ensures s < |src| ==> r.pos > s && r.SpanOf() == Span(src, s, SpanEnd(r.pos, ends))
    ensures s == |src| ==> r == Emit(src, SpanEnd(s, ends), s, Eof, ends)
    ensures r.result.Ok? && r.result.value.kind != Eof ==> s < |src|
  {
    if s == |src| then
      // `advance` finds nothing and leaves `end` where it was.
      Emit(src, SpanEnd(s, ends), s, Eof, ends)
    else
      var c := src[s];
      if IsIdentifierStart(c) then
        var e := RunEnd(src, s + 1, IdentContinue);
        Emit(src, s, e, WordKind(src[s..e]), ends)
      else if IsAsciiDigit(c) then
        Emit(src, s, NumberEnd(src, s + 1), Number, ends)
      else if c == '"' then
        var e := RunEnd(src, s + 1, StringBody);
        if At(src, e) == '"' then Emit(src, s, e + 1, String, ends)
        else Fail(src, "expected closing quotes", s, e, ends)
      else if PairKind(c, At(src, s + 1)).Some? then
        Emit(src, s, s + 2, PairKind(c, At(src, s + 1)).value, ends)
      else if SingleKind(c).Some? then
        Emit(src, s, s + 1, SingleKind(c).value, ends)
      else if c == EOF_CHAR then
        Emit(src, s, s + 1, Eof, ends)
      else
        Fail(src, "unexpected character '" + [c] + "'", s, s + 1, ends)
  }

  /**
   * What a token's span slices to, against the characters the token
   * consumed: all of them with exclusive ends, all but the last as written.
   */
  lemma SliceOfToken(src: string, pos: nat, ends: Ends)
    requires pos <= |src|
    requires RunEnd(src, pos, Whitespace) < |src|
    ensures var r := Scan(src, pos, ends); var sp := r.SpanOf();
      match ends
      case Exclusive => Slice(sp) == src[sp.start..r.pos]
      case AsWritten => Slice(sp) + [src[r.pos - 1]] == src[sp.start..r.pos]
  {
    var r := Scan(src, pos, ends);
    var sp := r.SpanOf();
    if ends == AsWritten {
      assert src[sp.start..r.pos] == src[sp.start..r.pos - 1] + [src[r.pos - 1]];
    }
  }

  /** A span with its end pulled back onto the last character; an empty span moves to `LastIndex`. */
  function Narrow(sp: Span): (n: Span)
    ensures sp.Valid() ==> n.Valid()
  {
    if sp.start < sp.end then Span(sp.source, sp.start, sp.end - 1)
    else Span(sp.source, LastIndex(sp.start), LastIndex(sp.start))
  }

  function NarrowStep(r: Scanner.Step): Scanner.Step {
    match r.result
    case Ok(t) => Scanner.Step(Ok(Token(Narrow(t.span), t.kind)), r.pos)
    case Err(e) => Scanner.Step(Err(Scanner.ScanError(e.message, Narrow(e.span))), r.pos)
  }

  /**
   * The code as written agrees with the exclusive reading on every input
   * except in its spans, each of which ends one character earlier.
   */
  lemma AsWrittenNarrowsEveryToken(src: string, pos: nat)
    requires pos <= |src|
    ensures Scan(src, pos, AsWritten) == NarrowStep(Scan(src, pos, Exclusive))
  {
    var s := RunEnd(src, pos, Whitespace);
    AsWrittenNarrowsAt(src, s);
  }

  lemma AsWrittenNarrowsAt(src: string, s: nat)
    requires s <= |src|
    ensures ScanAt(src, s, AsWritten) == NarrowStep(ScanAt(src, s, Exclusive))
  {
    var a := ScanAt(src, s, AsWritten);
    var x := ScanAt(src, s, Exclusive);
    assert a.pos == x.pos;
    assert a.result.Ok? <==> x.result.Ok?;
    if a.result.Ok? {
      assert a.result.value.kind == x.result.value.kind;
    } else {
      assert a.result.error.message == x.result.error.message;
    }
  }

  /**
   * With exclusive ends this scanner is the newer one, except at `+`
   * (which has a `+=` arm here) and `!` (which has no `!=` arm here).
   */
  lemma ExclusiveMatchesNewScanner(src: string, pos: nat)
    requires pos <= |src|
    requires var s := RunEnd(src, pos, Whitespace); s < |src| ==> src[s] != '+' && src[s] != '!'
    ensures Scan(src, pos, Exclusive) == Scanner.Scan(src, pos)
  {
    var s := RunEnd(src, pos, Whitespace);
    if s < |src| {
      var c := src[s];
      if !IsIdentifierStart(c) && !IsAsciiDigit(c) && c != '"' {
        PairKindsAgree(c, At(src, s + 1));
        assert Scanner.ScanAt(src, s) == Scanner.ScanSymbol(src, s);
      }
    }
  }

  lemma PairKindsAgree(c: char, d: char)
    requires c != '+' && c != '!'
    ensures PairKind(c, d) == Scanner.PairKind(c, d)
  {
  }

  /** `+=` is one token here. */
  lemma PlusEqualIsOneToken(src: string, pos: nat, ends: Ends)
    requires pos <= |src|
    requires var s := RunEnd(src, pos, Whitespace); s + 1 < |src| && src[s] == '+' && src[s + 1] == '='
    ensures var s := RunEnd(src, pos, Whitespace);
      Scan(src, pos, ends) == Emit(src, s, s + 2, PlusEqual, ends)
  {
  }

  /** `!` has no arm at all, so it is an unexpected character even before `=`. */
  lemma BangIsUnexpected(src: string, pos: nat, ends: Ends)
    requires pos <= |src|
    requires var s := RunEnd(src, pos, Whitespace); s < |src| && src[s] == '!'
    ensures var s := RunEnd(src, pos, Whitespace);
      Scan(src, pos, ends) == Fail(src, "unexpected character '!'", s, s + 1, ends)
  {
    assert "unexpected character '" + ['!'] + "'" == "unexpected character '!'";
  }

  /**
   * Once only whitespace remains, every call returns the same `Eof` token;
   * as written its span repeats the index of the last character.
   */
  lemma EofRepeats(src: string, pos: nat, ends: Ends)
    requires pos <= |src|
    requires forall k :: pos <= k < |src| ==> IsAsciiWhitespace(src[k])
    ensures Scan(src, pos, ends) == Emit(src, SpanEnd(|src|, ends), |src|, Eof, ends)
    ensures Scan(src, |src|, ends) == Scan(src, pos, ends)
  {
    RunEndUnique(src, pos, |src|, Whitespace);
    RunEndUnique(src, |src|, |src|, Whitespace);
  }

  /** `Iterator::next` wraps every `scan` result in `Some`. */
  function Next(src: string, pos: nat, ends: Ends): (r: (Option<Result<Token, Scanner.ScanError>>, nat))
    requires pos <= |src|
    ensures r.1 <= |src|
  {
    var st := Scan(src, pos, ends);
    (Some(st.result), st.pos)
  }

  /** The first `k` items of the iterator from position `pos`. */
  function Items(src: string, pos: nat, k: nat, ends: Ends): seq<Option<Result<Token, Scanner.ScanError>>>
    requires pos <= |src|
    decreases k
  {
    if k == 0 then []
    else
      var (item, next) := Next(src, pos, ends);
      [item] + Items(src, next, k - 1, ends)
  }

  /** The token stream never ends: any number of `next` calls all yield `Some`. */
  lemma {:induction false} StreamIsUnbounded(src: string, pos: nat, k: nat, ends: Ends)
    requires pos <= |src|
    ensures var xs := Items(src, pos, k, ends);
      |xs| == k && forall i :: 0 <= i < k ==> xs[i].Some?
    decreases k
  {
    if k > 0 {
      var (item, next) := Next(src, pos, ends);
      StreamIsUnbounded(src, next, k - 1, ends);
      assert Items(src, pos, k, ends) == [item] + Items(src, next, k - 1, ends);
    }
  }
}

module OldScannerExamples {
  import opened Chars
  import opened Wrappers
  import opened Tokens
  import opened Lexing
  import Scanner
  import ScannerProofs
  import opened OldScanner

  /**
   * "256.log2()" as written: a number then the `.` as its own token, every
   * single-character token with start == end.
   */
  lemma MethodCallAsWritten(src: string)
    requires src == "256.log2()"
    ensures Scan(src, 0, AsWritten) == Emit(src, 0, 3, Number, AsWritten)
    ensures Scan(src, 3, AsWritten) == Emit(src, 3, 4, Period, AsWritten)
    ensures Scan(src, 4, AsWritten) == Emit(src, 4, 8, Identifier, AsWritten)
    ensures Scan(src, 8, AsWritten) == Emit(src, 8, 9, LParen, AsWritten)
    ensures Scan(src, 9, AsWritten) == Emit(src, 9, 10, RParen, AsWritten)
  {
    MethodCallReceiver(src);
    MethodCallRest(src);
  }

  lemma MethodCallReceiver(src: string)
    requires src == "256.log2()"
    ensures Scan(src, 0, AsWritten) == Emit(src, 0, 3, Number, AsWritten)
    ensures Scan(src, 3, AsWritten) == Emit(src, 3, 4, Period, AsWritten)
  {
    MethodCallNumber(src);
    MethodCallPeriod(src);
  }

  lemma MethodCallNumber(src: string)
    requires src == "256.log2()"
    ensures Scan(src, 0, AsWritten) == Emit(src, 0, 3, Number, AsWritten)
  {
    ScannerProofs.MethodCallNumber(src);
    Agree(src, 0, 0);
  }

  lemma MethodCallPeriod(src: string)
    requires src == "256.log2()"
    ensures Scan(src, 3, AsWritten) == Emit(src, 3, 4, Period, AsWritten)
  {
    ScannerProofs.MethodCallReceiver(src);
    Agree(src, 3, 3);
  }

  lemma MethodCallRest(src: string)
    requires src == "256.log2()"
    ensures Scan(src, 4, AsWritten) == Emit(src, 4, 8, Identifier, AsWritten)
    ensures Scan(src, 8, AsWritten) == Emit(src, 8, 9, LParen, AsWritten)
    ensures Scan(src, 9, AsWritten) == Emit(src, 9, 10, RParen, AsWritten)
  {
    MethodCallName(src);
    MethodCallParens(src);
  }

  lemma MethodCallName(src: string)
    requires src == "256.log2()"
    ensures Scan(src, 4, AsWritten) == Emit(src, 4, 8, Identifier, AsWritten)
  {
    ScannerProofs.MethodCallName(src);
    Agree(src, 4, 4);
  }

  lemma MethodCallParens(src: string)
    requires src == "256.log2()"
    ensures Scan(src, 8, AsWritten) == Emit(src, 8, 9, LParen, AsWritten)
    ensures Scan(src, 9, AsWritten) == Emit(src, 9, 10, RParen, AsWritten)
  {
    ScannerProofs.MethodCallParens(src);
    Agree(src, 8, 8);
    Agree(src, 9, 9);
  }

  /** "12.34" as written: one `Number` whose span ends on its last digit. */
  lemma FractionAsWritten(src: string)
    requires src == "12.34"
    ensures Scan(src, 0, AsWritten) == Scanner.Step(Ok(Token(Span(src, 0, 4), Number)), 5)
  {
    ScannerProofs.ScanFractionAt(src, 0, 0, 2, 5);
    Agree(src, 0, 0);
  }

  /** Where the token at `s` is not `+` or `!`, both readings follow the newer scanner's result. */
  lemma Agree(src: string, pos: nat, s: nat)
    requires Scanner.WhitespaceBetween(src, pos, s) && s < |src| && !IsAsciiWhitespace(src[s])
    requires src[s] != '+' && src[s] != '!'
    ensures Scan(src, pos, Exclusive) == Scanner.Scan(src, pos)
    ensures Scan(src, pos, AsWritten) == NarrowStep(Scanner.Scan(src, pos))
  {
    RunEndUnique(src, pos, s, Whitespace);
    ExclusiveMatchesNewScanner(src, pos);
    AsWrittenNarrowsEveryToken(src, pos);
  }

  /** The tokens of "let x = 10;" under either reading of span ends; `Eof` repeats the last `end`. */
  function VarDeclTokens(src: string, ends: Ends): seq<Token> {
    [ Token(Span(src, 0, SpanEnd(3, ends)), Let),
      Token(Span(src, 4, SpanEnd(5, ends)), Identifier),
      Token(Span(src, 6, SpanEnd(7, ends)), Equal),
      Token(Span(src, 8, SpanEnd(10, ends)), Number),
      Token(Span(src, 10, SpanEnd(11, ends)), Semicolon),
      Token(Span(src, SpanEnd(11, ends), SpanEnd(11, ends)), Eof) ]
  }

  /** Successive `scan` calls over "let x = 10;" yield `VarDeclTokens`, each resuming where the last stopped. */
  lemma VarDeclScans(src: string, ends: Ends)
    requires src == "let x = 10;"
    ensures var ts := VarDeclTokens(src, ends);
      && Scan(src, 0, ends) == Scanner.Step(Ok(ts[0]), 3)
      && Scan(src, 3, ends) == Scanner.Step(Ok(ts[1]), 5)
      && Scan(src, 5, ends) == Scanner.Step(Ok(ts[2]), 7)
      && Scan(src, 7, ends) == Scanner.Step(Ok(ts[3]), 10)
      && Scan(src, 10, ends) == Scanner.Step(Ok(ts[4]), 11)
      && Scan(src, 11, ends) == Scanner.Step(Ok(ts[5]), 11)
  {
    VarDeclLet(src, ends);
    VarDeclName(src, ends);
    VarDeclEqual(src, ends);
    VarDeclNumber(src, ends);
    VarDeclSemicolon(src, ends);
    VarDeclEof(src, ends);
  }

  lemma VarDeclLet(src: string, ends: Ends)
    requires src == "let x = 10;"
    ensures Scan(src, 0, ends) == Scanner.Step(Ok(VarDeclTokens(src, ends)[0]), 3)
  {
    assert src[0..3] == "let";
    ScannerProofs.ScanWordAt(src, 0, 0, 3);
    Agree(src, 0, 0);
  }

  lemma VarDeclName(src: string, ends: Ends)
    requires src == "let x = 10;"
    ensures Scan(src, 3, ends) == Scanner.Step(Ok(VarDeclTokens(src, ends)[1]), 5)
  {
    assert src[4..5] == "x";
    ScannerProofs.ScanWordAt(src, 3, 4, 5);
    Agree(src, 3, 4);
  }

  lemma VarDeclEqual(src: string, ends: Ends)
    requires src == "let x = 10;"
    ensures Scan(src, 5, ends) == Scanner.Step(Ok(VarDeclTokens(src, ends)[2]), 7)
  {
    assert src[5] == ' ' && src[6] == '=' && At(src, 7) == ' ';
    assert Scanner.PairKind('=', ' ').None?;
    ScannerProofs.ScanSymbolAt(src, 5, 6);
    Agree(src, 5, 6);
  }

  lemma VarDeclNumber(src: string, ends: Ends)
    requires src == "let x = 10;"
    ensures Scan(src, 7, ends) == Scanner.Step(Ok(VarDeclTokens(src, ends)[3]), 10)
  {
    ScannerProofs.ScanIntegerAt(src, 7, 8, 10);
    Agree(src, 7, 8);
  }

  lemma VarDeclSemicolon(src: string, ends: Ends)
    requires src == "let x = 10;"
    ensures Scan(src, 10, ends) == Scanner.Step(Ok(VarDeclTokens(src, ends)[4]), 11)
  {
    ScannerProofs.ScanSymbolAt(src, 10, 10);
    Agree(src, 10, 10);
  }

  lemma VarDeclEof(src: string, ends: Ends)
    requires src == "let x = 10;"
    ensures Scan(src, 11, ends) == Scanner.Step(Ok(VarDeclTokens(src, ends)[5]), 11)
  {
    EofRepeats(src, 11, ends);
  }
}

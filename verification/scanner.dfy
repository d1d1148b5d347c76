/**
 * The newer scanner (compiler front end). Each call skips ASCII whitespace
 * and produces one token or one scan error. Spans are end-exclusive
 * character ranges; the scanner state is the cursor position.
 */
module Scanner {
  import opened Chars
  import opened Wrappers
  import opened Tokens
  import opened Lexing

  datatype ScanError = ScanError(message: string, span: Span)

  /** The outcome of one `scan` call together with the cursor position after it. */
  datatype Step = Step(result: Result<Token, ScanError>, pos: nat)
  {
    function SpanOf(): Span {
      match result
      case Ok(t) => t.span
      case Err(e) => e.span
    }
  }

  /** The two-character operators of this scanner; `+=` is not among them. */
  function PairKind(c: char, d: char): Option<TokenKind> {
    match (c, d)
    case ('-', '=') => Some(MinusEqual)
    case ('*', '=') => Some(StarEqual)
    case ('*', '*') => Some(StarStar)
    case ('/', '=') => Some(SlashEqual)
    case ('%', '=') => Some(PercentEqual)
    case ('=', '=') => Some(EqualEqual)
    case ('!', '=') => Some(BangEqual)
    case ('<', '=') => Some(LessEqual)
    case ('>', '=') => Some(GreaterEqual)
    case _ => None
  }

  /**
   * Reference classification of a complete lexeme, stated without the
   * scanning algorithm: the kind of token its text denotes, if any.
   */
  function LexemeKind(w: string): Option<TokenKind> {
    if IsIdentWord(w) then Some(WordKind(w))
    else if IsNumberWord(w) then Some(Number)
    else if IsStringWord(w) then Some(String)
    else if w == [] || w == [EOF_CHAR] then Some(Eof)
    else if |w| == 1 then SingleKind(w[0])
    else if |w| == 2 then PairKind(w[0], w[1])
    else None
  }

  function Emit(src: string, start: nat, end: nat, kind: TokenKind): Step {
    Step(Ok(Token(Span(src, start, end), kind)), end)
  }

  /** `Scanner::scan` from cursor position `pos`: skip whitespace, then read one token. */
  function Scan(src: string, pos: nat): (r: Step)
    requires pos <= |src|
    ensures pos <= r.pos <= |src|
    ensures var sp := r.SpanOf();
      && sp.source == src && sp.Valid() && pos <= sp.start
      && (forall k :: pos <= k < sp.start ==> IsAsciiWhitespace(src[k]))
      && !IsAsciiWhitespace(At(src, sp.start))
    ensures r.result.Ok? ==> r.SpanOf().end == r.pos
  {
    ScanAt(src, RunEnd(src, pos, Whitespace))
  }

  /** The token (or error) that starts at `s`, once whitespace is skipped. */
  function ScanAt(src: string, s: nat): (r: Step)
    requires s <= |src|
    ensures s <= r.pos <= |src|
    ensures var sp := r.SpanOf(); sp.source == src && sp.Valid() && sp.start == s
    ensures r.result.Ok? ==> r.SpanOf().end == r.pos
    ensures r.result.Ok? && r.result.value.kind != Eof ==> r.SpanOf().start < r.SpanOf().end
    ensures r.result.Ok? && r.result.value.kind == Eof ==>
      (s == r.pos == |src|) || (r.pos == s + 1 && src[s] == EOF_CHAR)
    ensures r.result.Err? ==> var sp := r.SpanOf();
      || (&& r.result.error.message == "expected closing quotes"
          && s < |src| && src[s] == '"'
          && (forall k :: s < k < sp.end ==> InClass(StringBody, src[k]))
          && At(src, sp.end) == EOF_CHAR && r.pos == sp.end)
      || (&& s < |src| && r.pos == sp.end == s + 1
          && r.result.error.message == "unexpected character '" + [src[s]] + "'")
  {
    var c := At(src, s);
    var p1 := if s < |src| then s + 1 else s;
    if IsIdentifierStart(c) then
      var e := RunEnd(src, p1, IdentContinue);
      Emit(src, s, e, WordKind(src[s..e]))
    else if IsAsciiDigit(c) then
      Emit(src, s, NumberEnd(src, p1), Number)
    else if c == '"' then
      ScanString(src, s)
    else
      ScanSymbol(src, s)
  }

  /** A string literal: everything up to the closing quote, or an error at the end of input. */
  function ScanString(src: string, s: nat): (r: Step)
    requires s < |src| && src[s] == '"'
    ensures s < r.pos <= |src| && r.SpanOf() == Span(src, s, r.SpanOf().end)
    ensures r.result.Ok? ==>
      && r.result.value.kind == String && r.SpanOf().end == r.pos
      && src[r.pos - 1] == '"' && s < r.pos - 1
      && forall k :: s < k < r.pos - 1 ==> InClass(StringBody, src[k])
    ensures r.result.Err? ==>
      && r.result.error.message == "expected closing quotes"
      && r.pos == r.SpanOf().end && At(src, r.pos) == EOF_CHAR
      && forall k :: s < k < r.pos ==> InClass(StringBody, src[k])
  {
    var e := RunEnd(src, s + 1, StringBody);
    if At(src, e) != '"' then
      Step(Err(ScanError("expected closing quotes", Span(src, s, e))), e)
    else
      Emit(src, s, e + 1, String)
  }

  /** Operators, punctuation, the end of input, and the unexpected-character error. */
  function ScanSymbol(src: string, s: nat): (r: Step)
    requires s <= |src|
    requires var c := At(src, s); !IsIdentifierStart(c) && !IsAsciiDigit(c) && c != '"'
    ensures r.SpanOf() == Span(src, s, r.pos) && s <= r.pos <= |src|
    ensures r.pos == s <==> s == |src|
    ensures r.pos <= s + 2
    ensures r.result.Ok? && r.pos == s + 2 ==> PairKind(src[s], src[s + 1]) == Some(r.result.value.kind)
    ensures r.result.Ok? && r.pos == s + 1 ==>
      PairKind(src[s], At(src, s + 1)).None?
      && (SingleKind(src[s]) == Some(r.result.value.kind)
          || (src[s] == EOF_CHAR && r.result.value.kind == Eof))
    ensures r.result.Ok? && r.pos == s ==> r.result.value.kind == Eof
    ensures r.result.Err? ==>
      && r.pos == s + 1
      && PairKind(src[s], At(src, s + 1)).None? && SingleKind(src[s]).None? && src[s] != EOF_CHAR
      && r.result.error.message == "unexpected character '" + [src[s]] + "'"
  {
    var c := At(src, s);
    var p1 := if s < |src| then s + 1 else s;
    if PairKind(c, At(src, p1)).Some? then
      Emit(src, s, p1 + 1, PairKind(c, At(src, p1)).value)
    else if SingleKind(c).Some? then
      Emit(src, s, p1, SingleKind(c).value)
    else if c == EOF_CHAR then
      Emit(src, s, p1, Eof)
    else
      Step(Err(ScanError("unexpected character '" + [c] + "'", Span(src, s, p1))), p1)
  }

  /** Every token `scan` returns is a lexeme of its kind, by the reference classification. */
  lemma ScanClassifiesLexeme(src: string, pos: nat)
    requires pos <= |src| && Scan(src, pos).result.Ok?
    ensures LexemeKind(Slice(Scan(src, pos).SpanOf())) == Some(Scan(src, pos).result.value.kind)
  {
    ScanAtClassifiesLexeme(src, RunEnd(src, pos, Whitespace));
  }

  lemma ScanAtClassifiesLexeme(src: string, s: nat)
    requires s <= |src| && ScanAt(src, s).result.Ok?
    ensures LexemeKind(Slice(ScanAt(src, s).SpanOf())) == Some(ScanAt(src, s).result.value.kind)
  {
    var c := At(src, s);
    var p1 := if s < |src| then s + 1 else s;
    if IsIdentifierStart(c) {
      IdentLexeme(src, s, RunEnd(src, p1, IdentContinue));
    } else if IsAsciiDigit(c) {
      NumberLexeme(src, s);
    } else if c == '"' {
      var r := ScanString(src, s);
      StringLexeme(src, s, r.pos - 1);
    } else {
      SymbolLexeme(src, s);
    }
  }

  lemma SymbolLexeme(src: string, s: nat)
    requires s <= |src|
    requires var c := At(src, s); !IsIdentifierStart(c) && !IsAsciiDigit(c) && c != '"'
    requires ScanSymbol(src, s).result.Ok?
    ensures var r := ScanSymbol(src, s);
      LexemeKind(src[s..r.pos]) == Some(r.result.value.kind)
  {
    var r := ScanSymbol(src, s);
    var w := src[s..r.pos];
    if r.pos == s + 2 {
      assert w == [src[s], src[s + 1]];
    } else if r.pos == s + 1 {
      assert w == [src[s]];
    }
  }

  lemma IdentLexeme(src: string, s: nat, e: nat)
    requires s < e <= |src| && IsIdentifierStart(src[s])
    requires forall k :: s + 1 <= k < e ==> IsIdentifierContinue(src[k])
    ensures IsIdentWord(src[s..e])
  {
  }

  lemma NumberLexeme(src: string, s: nat)
    requires s < |src| && IsAsciiDigit(src[s])
    ensures var w := src[s..NumberEnd(src, s + 1)];
      IsNumberWord(w) && !IsIdentWord(w)
  {
    var e := NumberEnd(src, s + 1);
    var w := src[s..e];
    var k := RunEnd(src, s + 1, Digit);
    if e != k {
      RunEndUnique(w, 0, k - s, Digit);
      assert w[k + 1 - s..] == src[k + 1..e];
    }
  }

  lemma StringLexeme(src: string, s: nat, e: nat)
    requires s < e < |src| && src[s] == '"' && src[e] == '"'
    requires forall k :: s + 1 <= k < e ==> InClass(StringBody, src[k])
    ensures var w := src[s..e + 1];
      IsStringWord(w) && !IsIdentWord(w) && !IsNumberWord(w)
  {
  }

  /** The characters in [a, b) are all ASCII whitespace. */
  ghost predicate WhitespaceBetween(src: string, a: nat, b: nat) {
    a <= b <= |src| && forall k :: a <= k < b ==> IsAsciiWhitespace(src[k])
  }

  /**
   * A token list read from position `pos`: every token is a lexeme of its
   * kind, tokens come in source order, and only whitespace separates them.
   */
  ghost predicate Covers(src: string, pos: nat, ts: seq<Token>) {
    && |ts| > 0
    && (forall i :: 0 <= i < |ts| ==>
          ts[i].span.source == src && ts[i].span.Valid() && LexemeKind(Slice(ts[i].span)) == Some(ts[i].kind))
    && WhitespaceBetween(src, pos, ts[0].span.start)
    && (forall i :: 0 <= i < |ts| - 1 ==> WhitespaceBetween(src, ts[i].span.end, ts[i + 1].span.start))
  }

  /**
   * Scan from `pos` until `Eof` or the first error, as a caller scanning a
   * whole program does.
   */
  function Tokenize(src: string, pos: nat): (r: Result<seq<Token>, ScanError>)
    requires pos <= |src|
    ensures r.Ok? ==> EofOnlyLast(r.value)
    decreases |src| - pos
  {
    var st := Scan(src, pos);
    match st.result
    case Err(e) => Err(e)
    case Ok(t) =>
      if t.kind == Eof then Ok([t])
      else
        match Tokenize(src, st.pos)
        case Err(e) => Err(e)
        case Ok(ts) =>
          EofOnlyLastCons(t, ts);
          Ok([t] + ts)
  }

  /** A token stream whose one `Eof` is its last token. */
  predicate EofOnlyLast(ts: seq<Token>) {
    && |ts| > 0 && ts[|ts| - 1].kind == Eof
    && forall i :: 0 <= i < |ts| - 1 ==> ts[i].kind != Eof
  }

  lemma EofOnlyLastCons(t: Token, ts: seq<Token>)
    requires t.kind != Eof && EofOnlyLast(ts)
    ensures EofOnlyLast([t] + ts)
  {
    var us := [t] + ts;
    forall i | 1 <= i < |us|
      ensures us[i] == ts[i - 1]
    {
    }
  }

  /**
   * A successful tokenization accounts for the whole input read: each token
   * is a lexeme of its kind, in source order, separated only by whitespace.
   */
  lemma {:induction false} TokenizeCovers(src: string, pos: nat)
    requires pos <= |src| && Tokenize(src, pos).Ok?
    ensures Covers(src, pos, Tokenize(src, pos).value)
    decreases |src| - pos
  {
    var st := Scan(src, pos);
    var t := st.result.value;
    ScanClassifiesLexeme(src, pos);
    if t.kind != Eof {
      TokenizeCovers(src, st.pos);
      var ts := Tokenize(src, st.pos).value;
      assert Tokenize(src, pos).value == [t] + ts;
      CoversCons(src, pos, t, ts);
    }
  }

  /**
   * The tokens of a run of `scan` calls: each is what `scan` returns from
   * where the previous one ended, the last is `Eof`, and no earlier one is.
   */
  ghost predicate ScansAs(src: string, pos: nat, ts: seq<Token>)
    decreases |ts|
  {
    && pos <= |src| && |ts| > 0
    && Scan(src, pos) == Step(Ok(ts[0]), ts[0].span.end)
    && (if ts[0].kind == Eof then |ts| == 1 else ScansAs(src, ts[0].span.end, ts[1..]))
  }

  /** Tokenizing succeeds with exactly the tokens of the run of `scan` calls that ends in `Eof`. */
  lemma {:induction false} TokenizeIsScanChain(src: string, pos: nat, ts: seq<Token>)
    requires pos <= |src|
    ensures Tokenize(src, pos) == Ok(ts) <==> ScansAs(src, pos, ts)
    decreases |src| - pos
  {
    var st := Scan(src, pos);
    if st.result.Err? {
      assert !ScansAs(src, pos, ts);
    } else if |ts| == 0 {
      assert !ScansAs(src, pos, ts);
    } else if st.result.value.kind == Eof {
      assert Tokenize(src, pos) == Ok([st.result.value]);
      if ScansAs(src, pos, ts) {
        assert ts == [ts[0]];
      }
    } else {
      TokenizeIsScanChain(src, st.pos, ts[1..]);
      TokenizeStep(src, pos, ts);
    }
  }

  /** One step of the equivalence: after a non-`Eof` token, both sides agree on the head and defer the tail. */
  lemma TokenizeStep(src: string, pos: nat, ts: seq<Token>)
    requires pos <= |src| && |ts| > 0
    requires Scan(src, pos).result.Ok? && Scan(src, pos).result.value.kind != Eof
    ensures Tokenize(src, pos) == Ok(ts) <==>
      ts[0] == Scan(src, pos).result.value && Tokenize(src, Scan(src, pos).pos) == Ok(ts[1..])
  {
    var st := Scan(src, pos);
    if Tokenize(src, pos) == Ok(ts) {
      var rest := Tokenize(src, st.pos).value;
      assert ts == [st.result.value] + rest;
      assert ts[1..] == rest;
    }
    if ts[0] == st.result.value && Tokenize(src, st.pos) == Ok(ts[1..]) {
      assert [ts[0]] + ts[1..] == ts;
    }
  }

  lemma CoversCons(src: string, pos: nat, t: Token, ts: seq<Token>)
    requires t.span.source == src && t.span.Valid() && LexemeKind(Slice(t.span)) == Some(t.kind)
    requires WhitespaceBetween(src, pos, t.span.start)
    requires Covers(src, t.span.end, ts)
    ensures Covers(src, pos, [t] + ts)
  {
    var us := [t] + ts;
    forall i | 1 <= i < |us|
      ensures us[i] == ts[i - 1]
    {
    }
  }
}

module ScannerProofs {
  import opened Chars
  import opened Wrappers
  import opened Tokens
  import opened Lexing
  import opened Scanner

  /** What a lexeme's first character says about its class. */
  lemma LexemeByFirstChar(w: string)
    requires |w| > 0 && LexemeKind(w).Some?
    ensures IsIdentifierStart(w[0]) ==> IsIdentWord(w)
    ensures IsAsciiDigit(w[0]) ==> IsNumberWord(w)
    ensures w[0] == '"' ==> IsStringWord(w)
    ensures w[0] == EOF_CHAR ==> w == [EOF_CHAR]
    ensures !IsIdentifierStart(w[0]) && !IsAsciiDigit(w[0]) && w[0] != '"' && w[0] != EOF_CHAR ==>
      && |w| <= 2
      && (|w| == 1 ==> SingleKind(w[0]).Some?)
      && (|w| == 2 ==> PairKind(w[0], w[1]).Some?)
  {
    if IsAsciiDigit(w[0]) {
      assert !IsIdentWord(w);
      assert !IsStringWord(w);
    }
  }

  /**
   * Maximal munch: no lexeme that starts where a token starts is longer than
   * that token. After an error, no lexeme at all starts at the error's start.
   */
  lemma ScanIsMaximalMunch(src: string, pos: nat)
    requires pos <= |src|
    ensures var r := Scan(src, pos); var sp := r.SpanOf();
      forall e' :: (if r.result.Ok? then sp.end else sp.start) < e' <= |src| ==>
        LexemeKind(src[sp.start..e']).None?
  {
    var r := Scan(src, pos);
    var sp := r.SpanOf();
    var s := RunEnd(src, pos, Whitespace);
    RunEndUnique(src, pos, sp.start, Whitespace);
    assert s == sp.start;
    var lo := if r.result.Ok? then sp.end else sp.start;
    forall e' | lo < e' <= |src|
      ensures LexemeKind(src[s..e']).None?
    {
      var c := src[s];
      if IsIdentifierStart(c) {
        IdentNotLonger(src, s, e');
      } else if IsAsciiDigit(c) {
        NumberNotLonger(src, s, e');
      } else if c == '"' {
        StringNotLonger(src, s, e');
      } else {
        SymbolNotLonger(src, s, e');
      }
    }
  }

  lemma IdentNotLonger(src: string, s: nat, e': nat)
    requires s < |src| && IsIdentifierStart(src[s])
    requires RunEnd(src, s + 1, IdentContinue) < e' <= |src|
    ensures LexemeKind(src[s..e']).None?
  {
    var w := src[s..e'];
    var e := RunEnd(src, s + 1, IdentContinue);
    assert w[e - s] == src[e];
    if LexemeKind(w).Some? {
      LexemeByFirstChar(w);
    }
  }

  lemma NumberNotLonger(src: string, s: nat, e': nat)
    requires s < |src| && IsAsciiDigit(src[s])
    requires NumberEnd(src, s + 1) < e' <= |src|
    ensures LexemeKind(src[s..e']).None?
  {
    var w := src[s..e'];
    var k := RunEnd(src, s + 1, Digit);
    assert w[k - s] == src[k];
    RunEndUnique(w, 0, k - s, Digit);
    assert !AllDigits(w);
    if At(src, k) == '.' && IsAsciiDigit(At(src, k + 1)) {
      var e := RunEnd(src, k + 1, Digit);
      assert w[k - s + 1..][e - k - 1] == src[e];
    } else if k - s + 1 < |w| && w[k - s] == '.' {
      assert w[k - s + 1..][0] == src[k + 1];
    }
    if LexemeKind(w).Some? {
      LexemeByFirstChar(w);
    }
  }

  lemma StringNotLonger(src: string, s: nat, e': nat)
    requires s < |src| && src[s] == '"'
    requires var e := RunEnd(src, s + 1, StringBody);
      if At(src, e) == '"' then e + 1 < e' <= |src| else s < e' <= |src|
    ensures LexemeKind(src[s..e']).None?
  {
    var w := src[s..e'];
    var e := RunEnd(src, s + 1, StringBody);
    if At(src, e) == '"' {
      assert w[e - s] == '"';
    } else if e' <= e {
      assert w[|w| - 1] == src[e' - 1];
    } else {
      assert w[e - s] == src[e];
    }
    if LexemeKind(w).Some? {
      LexemeByFirstChar(w);
    }
  }

  lemma SymbolNotLonger(src: string, s: nat, e': nat)
    requires s < |src|
    requires var c := src[s]; !IsIdentifierStart(c) && !IsAsciiDigit(c) && c != '"'
    requires var c := src[s];
      if c == EOF_CHAR then s + 1 < e' <= |src|
      else if PairKind(c, At(src, s + 1)).Some? then s + 2 < e' <= |src|
      else if SingleKind(c).Some? then s + 1 < e' <= |src|
      else s < e' <= |src|
    ensures LexemeKind(src[s..e']).None?
  {
    var w := src[s..e'];
    if |w| == 2 {
      assert w[1] == At(src, s + 1);
    }
    if LexemeKind(w).Some? {
      LexemeByFirstChar(w);
    }
  }

  /**
   * Once only whitespace remains, `scan` returns `Eof` spanning [len, len)
   * and leaves the cursor at the end, so every further call returns the
   * same token.
   */
  lemma {:induction false} ScanEofIsStable(src: string, pos: nat)
    requires pos <= |src|
    requires forall k :: pos <= k < |src| ==> IsAsciiWhitespace(src[k])
    ensures Scan(src, pos) == Step(Ok(Token(Span(src, |src|, |src|), Eof)), |src|)
    ensures Scan(src, |src|) == Scan(src, pos)
  {
    RunEndUnique(src, pos, |src|, Whitespace);
    RunEndUnique(src, |src|, |src|, Whitespace);
  }

  function Tok(src: string, start: nat, end: nat, kind: TokenKind): Token {
    Token(Span(src, start, end), kind)
  }

  /** An identifier-shaped lexeme after whitespace scans as a keyword or identifier spanning it. */
  lemma ScanWordAt(src: string, pos: nat, s: nat, e: nat)
    requires WhitespaceBetween(src, pos, s) && s < e <= |src|
    requires IsIdentifierStart(src[s]) && forall k :: s < k < e ==> IsIdentifierContinue(src[k])
    requires !IsIdentifierContinue(At(src, e))
    ensures Scan(src, pos) == Emit(src, s, e, WordKind(src[s..e]))
  {
    RunEndUnique(src, pos, s, Whitespace);
    RunEndUnique(src, s + 1, e, IdentContinue);
  }

  /** A digit run not followed by `.` and a digit scans as one `Number`. */
  lemma ScanIntegerAt(src: string, pos: nat, s: nat, e: nat)
    requires WhitespaceBetween(src, pos, s) && s < e <= |src|
    requires forall k :: s <= k < e ==> IsAsciiDigit(src[k])
    requires !IsAsciiDigit(At(src, e)) && !(At(src, e) == '.' && IsAsciiDigit(At(src, e + 1)))
    ensures Scan(src, pos) == Emit(src, s, e, Number)
  {
    RunEndUnique(src, pos, s, Whitespace);
    RunEndUnique(src, s + 1, e, Digit);
  }

  /** Digits, `.`, digits scan as one `Number`. */
  lemma ScanFractionAt(src: string, pos: nat, s: nat, d: nat, e: nat)
    requires WhitespaceBetween(src, pos, s) && s < d < e <= |src| && d + 1 < e
    requires forall k :: s <= k < d ==> IsAsciiDigit(src[k])
    requires src[d] == '.' && forall k :: d < k < e ==> IsAsciiDigit(src[k])
    requires !IsAsciiDigit(At(src, e))
    ensures Scan(src, pos) == Emit(src, s, e, Number)
  {
    RunEndUnique(src, pos, s, Whitespace);
    RunEndUnique(src, s + 1, d, Digit);
    RunEndUnique(src, d + 1, e, Digit);
    assert NumberEnd(src, s + 1) == e;
    assert At(src, s) == src[s] && IsAsciiDigit(src[s]);
  }

  /** Symbol characters start neither a word, a number nor a string. */
  lemma SymbolCharIsNoWordStart(c: char)
    requires SingleKind(c).Some? || exists d :: PairKind(c, d).Some?
    ensures !IsIdentifierStart(c) && !IsAsciiDigit(c) && c != '"' && c != EOF_CHAR
  {
    if SingleKind(c).None? {
      var d :| PairKind(c, d).Some?;
      assert c in "-*/%=!<>";
    }
  }

  /** A one-character symbol with no two-character reading scans alone. */
  lemma ScanSymbolAt(src: string, pos: nat, s: nat)
    requires WhitespaceBetween(src, pos, s) && s < |src|
    requires SingleKind(src[s]).Some? && PairKind(src[s], At(src, s + 1)).None?
    ensures Scan(src, pos) == Emit(src, s, s + 1, SingleKind(src[s]).value)
  {
    RunEndUnique(src, pos, s, Whitespace);
    SymbolCharIsNoWordStart(src[s]);
    assert ScanAt(src, s) == ScanSymbol(src, s);
  }

  /** A two-character operator scans as its compound kind. */
  lemma ScanPairAt(src: string, pos: nat, s: nat)
    requires WhitespaceBetween(src, pos, s) && s + 1 < |src|
    requires PairKind(src[s], src[s + 1]).Some?
    ensures Scan(src, pos) == Emit(src, s, s + 2, PairKind(src[s], src[s + 1]).value)
  {
    RunEndUnique(src, pos, s, Whitespace);
    SymbolCharIsNoWordStart(src[s]);
    assert At(src, s + 1) == src[s + 1];
    assert ScanAt(src, s) == ScanSymbol(src, s);
  }

  /** The scanner's own example: a method call on a number literal leaves the `.` to the next token. */
  lemma ScanMethodCallOnNumber(src: string)
    requires src == "256.log2()"
    ensures Scan(src, 0) == Emit(src, 0, 3, Number)
    ensures Scan(src, 3) == Emit(src, 3, 4, Period)
    ensures Scan(src, 4) == Emit(src, 4, 8, Identifier)
    ensures Scan(src, 8) == Emit(src, 8, 9, LParen)
    ensures Scan(src, 9) == Emit(src, 9, 10, RParen)
    ensures Scan(src, 10) == Emit(src, 10, 10, Eof)
  {
    MethodCallReceiver(src);
    MethodCallRest(src);
  }

  lemma MethodCallReceiver(src: string)
    requires src == "256.log2()"
    ensures Scan(src, 0) == Emit(src, 0, 3, Number)
    ensures Scan(src, 3) == Emit(src, 3, 4, Period)
  {
    MethodCallNumber(src);
    ScanSymbolAt(src, 3, 3);
  }

  lemma MethodCallNumber(src: string)
    requires src == "256.log2()"
    ensures Scan(src, 0) == Emit(src, 0, 3, Number)
  {
    assert src[3] == '.' && src[4] == 'l';
    ScanIntegerAt(src, 0, 0, 3);
  }

  lemma MethodCallRest(src: string)
    requires src == "256.log2()"
    ensures Scan(src, 4) == Emit(src, 4, 8, Identifier)
    ensures Scan(src, 8) == Emit(src, 8, 9, LParen)
    ensures Scan(src, 9) == Emit(src, 9, 10, RParen)
    ensures Scan(src, 10) == Emit(src, 10, 10, Eof)
  {
    MethodCallName(src);
    MethodCallParens(src);
  }

  lemma MethodCallName(src: string)
    requires src == "256.log2()"
    ensures Scan(src, 4) == Emit(src, 4, 8, Identifier)
  {
    assert src[4..8] == "log2";
    ScanWordAt(src, 4, 4, 8);
  }

  lemma MethodCallParens(src: string)
    requires src == "256.log2()"
    ensures Scan(src, 8) == Emit(src, 8, 9, LParen)
    ensures Scan(src, 9) == Emit(src, 9, 10, RParen)
    ensures Scan(src, 10) == Emit(src, 10, 10, Eof)
  {
    MethodCallOpen(src);
    MethodCallClose(src);
    ScanEofIsStable(src, 10);
  }

  lemma MethodCallOpen(src: string)
    requires src == "256.log2()"
    ensures Scan(src, 8) == Emit(src, 8, 9, LParen)
  {
    assert src[8] == '(' && At(src, 9) == ')';
    ScanSymbolAt(src, 8, 8);
  }

  lemma MethodCallClose(src: string)
    requires src == "256.log2()"
    ensures Scan(src, 9) == Emit(src, 9, 10, RParen)
  {
    assert src[9] == ')' && At(src, 10) == EOF_CHAR;
    ScanSymbolAt(src, 9, 9);
  }

  /** A fractional literal is one token; the empty source is just `Eof` at [0, 0). */
  lemma ScanFractionAndEmpty(src: string)
    requires src == "12.34"
    ensures Scan(src, 0) == Emit(src, 0, 5, Number)
    ensures Tokenize("", 0) == Ok([Tok("", 0, 0, Eof)])
  {
    ScanFractionAt(src, 0, 0, 2, 5);
    ScanEofIsStable("", 0);
  }

  /** `+=` has no compound arm here: it scans as `+` then `=`. */
  lemma ScanPlusEqualIsTwoTokens(src: string)
    requires src == "+="
    ensures Scan(src, 0) == Emit(src, 0, 1, Plus)
    ensures Scan(src, 1) == Emit(src, 1, 2, Equal)
  {
    ScanSymbolAt(src, 0, 0);
    ScanSymbolAt(src, 1, 1);
  }

  /** A lone `!` is an unexpected character covering just itself. */
  lemma ScanLoneBang()
    ensures Scan("x!", 1) == Step(Err(ScanError("unexpected character '!'", Span("x!", 1, 2))), 2)
  {
    RunEndUnique("x!", 1, 1, Whitespace);
    assert "unexpected character '" + ['!'] + "'" == "unexpected character '!'";
  }

  /** A quote with no closing quote is a scan error spanning the rest of the input. */
  lemma ScanUnterminatedString()
    ensures Scan("\"ab", 0) == Step(Err(ScanError("expected closing quotes", Span("\"ab", 0, 3))), 3)
  {
    RunEndUnique("\"ab", 0, 0, Whitespace);
    RunEndUnique("\"ab", 1, 3, StringBody);
  }

  /** The scanner's own example: a variable declaration, one `scan` call after another. */
  lemma ScanVarDecl(src: string)
    requires src == "let x = 10;"
    ensures Scan(src, 0) == Emit(src, 0, 3, Let)
    ensures Scan(src, 3) == Emit(src, 4, 5, Identifier)
    ensures Scan(src, 5) == Emit(src, 6, 7, Equal)
    ensures Scan(src, 7) == Emit(src, 8, 10, Number)
    ensures Scan(src, 10) == Emit(src, 10, 11, Semicolon)
    ensures Scan(src, 11) == Emit(src, 11, 11, Eof)
  {
    LetKeyword(src); LetName(src); LetEqual(src);
    LetNumber(src); LetSemicolon(src); LetEof(src);
  }

  lemma LetKeyword(src: string)
    requires src == "let x = 10;"
    ensures Scan(src, 0) == Emit(src, 0, 3, Let)
  {
    assert src[0] == 'l' && src[1] == 'e' && src[2] == 't' && src[3] == ' ';
    assert src[0..3] == "let";
    ScanWordAt(src, 0, 0, 3);
  }

  lemma LetName(src: string)
    requires src == "let x = 10;"
    ensures Scan(src, 3) == Emit(src, 4, 5, Identifier)
  {
    assert src[3] == ' ' && src[4] == 'x' && src[5] == ' ';
    assert src[4..5] == "x";
    ScanWordAt(src, 3, 4, 5);
  }

  lemma LetEqual(src: string)
    requires src == "let x = 10;"
    ensures Scan(src, 5) == Emit(src, 6, 7, Equal)
  {
    assert src[5] == ' ' && src[6] == '=' && At(src, 7) == ' ';
    ScanSymbolAt(src, 5, 6);
  }

  lemma LetNumber(src: string)
    requires src == "let x = 10;"
    ensures Scan(src, 7) == Emit(src, 8, 10, Number)
  {
    assert src[7] == ' ' && src[8] == '1' && src[9] == '0' && At(src, 10) == ';';
    ScanIntegerAt(src, 7, 8, 10);
  }

  lemma LetSemicolon(src: string)
    requires src == "let x = 10;"
    ensures Scan(src, 10) == Emit(src, 10, 11, Semicolon)
  {
    assert src[10] == ';' && At(src, 11) == EOF_CHAR;
    ScanSymbolAt(src, 10, 10);
  }

  lemma LetEof(src: string)
    requires src == "let x = 10;"
    ensures Scan(src, 11) == Emit(src, 11, 11, Eof)
  {
    ScanEofIsStable(src, 11);
  }

  /** The scanner's own example: a function declaration, one `scan` call after another. */
  lemma ScanFuncDecl(src: string)
    requires src == "func add(x, y) { return x + y; }"
    ensures Scan(src, 0) == Emit(src, 0, 4, Func)
    ensures Scan(src, 4) == Emit(src, 5, 8, Identifier)
    ensures Scan(src, 8) == Emit(src, 8, 9, LParen)
    ensures Scan(src, 9) == Emit(src, 9, 10, Identifier)
    ensures Scan(src, 10) == Emit(src, 10, 11, Comma)
    ensures Scan(src, 11) == Emit(src, 12, 13, Identifier)
    ensures Scan(src, 13) == Emit(src, 13, 14, RParen)
    ensures Scan(src, 14) == Emit(src, 15, 16, LBrace)
    ensures Scan(src, 16) == Emit(src, 17, 23, Return)
    ensures Scan(src, 23) == Emit(src, 24, 25, Identifier)
    ensures Scan(src, 25) == Emit(src, 26, 27, Plus)
    ensures Scan(src, 27) == Emit(src, 28, 29, Identifier)
    ensures Scan(src, 29) == Emit(src, 29, 30, Semicolon)
    ensures Scan(src, 30) == Emit(src, 31, 32, RBrace)
  {
    FuncKeyword(src); FuncName(src); FuncOpen(src);
    FuncFirstParam(src); FuncComma(src); FuncSecondParam(src); FuncClose(src);
    FuncBodyOpen(src); FuncReturn(src); FuncLeftOperand(src);
    FuncPlus(src); FuncRightOperand(src); FuncSemicolon(src); FuncBodyClose(src);
  }

  lemma FuncKeyword(src: string)
    requires src == "func add(x, y) { return x + y; }"
    ensures Scan(src, 0) == Emit(src, 0, 4, Func)
  {
    assert src[0..4] == "func" && src[4] == ' ';
    ScanWordAt(src, 0, 0, 4);
  }

  lemma FuncName(src: string)
    requires src == "func add(x, y) { return x + y; }"
    ensures Scan(src, 4) == Emit(src, 5, 8, Identifier)
  {
    assert src[4] == ' ' && src[8] == '(';
    assert src[5] == 'a' && src[6] == 'd' && src[7] == 'd';
    assert src[5..8] == "add";
    ScanWordAt(src, 4, 5, 8);
  }

  lemma FuncOpen(src: string)
    requires src == "func add(x, y) { return x + y; }"
    ensures Scan(src, 8) == Emit(src, 8, 9, LParen)
  {
    assert src[8] == '(' && At(src, 9) == 'x';
    ScanSymbolAt(src, 8, 8);
  }

  lemma FuncFirstParam(src: string)
    requires src == "func add(x, y) { return x + y; }"
    ensures Scan(src, 9) == Emit(src, 9, 10, Identifier)
  {
    assert src[9..10] == "x" && src[10] == ',';
    ScanWordAt(src, 9, 9, 10);
  }

  lemma FuncComma(src: string)
    requires src == "func add(x, y) { return x + y; }"
    ensures Scan(src, 10) == Emit(src, 10, 11, Comma)
  {
    assert src[10] == ',' && At(src, 11) == ' ';
    ScanSymbolAt(src, 10, 10);
  }

  lemma FuncSecondParam(src: string)
    requires src == "func add(x, y) { return x + y; }"
    ensures Scan(src, 11) == Emit(src, 12, 13, Identifier)
  {
    assert src[11] == ' ' && src[12..13] == "y" && src[13] == ')';
    ScanWordAt(src, 11, 12, 13);
  }

  lemma FuncClose(src: string)
    requires src == "func add(x, y) { return x + y; }"
    ensures Scan(src, 13) == Emit(src, 13, 14, RParen)
  {
    assert src[13] == ')' && At(src, 14) == ' ';
    ScanSymbolAt(src, 13, 13);
  }

  lemma FuncBodyOpen(src: string)
    requires src == "func add(x, y) { return x + y; }"
    ensures Scan(src, 14) == Emit(src, 15, 16, LBrace)
  {
    assert src[14] == ' ' && src[15] == '{' && At(src, 16) == ' ';
    ScanSymbolAt(src, 14, 15);
  }

  lemma FuncReturn(src: string)
    requires src == "func add(x, y) { return x + y; }"
    ensures Scan(src, 16) == Emit(src, 17, 23, Return)
  {
    assert src[16] == ' ' && src[17..23] == "return" && src[23] == ' ';
    ScanWordAt(src, 16, 17, 23);
  }

  lemma FuncLeftOperand(src: string)
    requires src == "func add(x, y) { return x + y; }"
    ensures Scan(src, 23) == Emit(src, 24, 25, Identifier)
  {
    assert src[23] == ' ' && src[24..25] == "x" && src[25] == ' ';
    ScanWordAt(src, 23, 24, 25);
  }

  lemma FuncPlus(src: string)
    requires src == "func add(x, y) { return x + y; }"
    ensures Scan(src, 25) == Emit(src, 26, 27, Plus)
  {
    assert src[25] == ' ' && src[26] == '+' && At(src, 27) == ' ';
    ScanSymbolAt(src, 25, 26);
  }

  lemma FuncRightOperand(src: string)
    requires src == "func add(x, y) { return x + y; }"
    ensures Scan(src, 27) == Emit(src, 28, 29, Identifier)
  {
    assert src[27] == ' ' && src[28..29] == "y" && src[29] == ';';
    ScanWordAt(src, 27, 28, 29);
  }

  lemma FuncSemicolon(src: string)
    requires src == "func add(x, y) { return x + y; }"
    ensures Scan(src, 29) == Emit(src, 29, 30, Semicolon)
  {
    assert src[29] == ';' && At(src, 30) == ' ';
    ScanSymbolAt(src, 29, 29);
  }

  lemma FuncBodyClose(src: string)
    requires src == "func add(x, y) { return x + y; }"
    ensures Scan(src, 30) == Emit(src, 31, 32, RBrace)
  {
    assert src[30] == ' ' && src[31] == '}' && At(src, 32) == EOF_CHAR;
    ScanSymbolAt(src, 30, 31);
  }
}

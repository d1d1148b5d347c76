/**
 * The character-run helpers both scanners are built from, and the lexical
 * classes of whole lexemes that serve as the reference the scanners are
 * checked against.
 */
module Lexing {
  import opened Chars
  import opened Wrappers
  import opened Tokens

  /** The character at index i, or the EOF sentinel past the end (`lookahead`). */
  function At(src: string, i: nat): (c: char)
    ensures i < |src| ==> c == src[i]
    ensures i >= |src| ==> c == EOF_CHAR
  {
    if i < |src| then src[i] else EOF_CHAR
  }

  /** The character classes the scanners consume runs of. */
  datatype Class = Whitespace | Digit | IdentContinue | StringBody

  predicate InClass(cls: Class, c: char) {
    match cls
    case Whitespace => IsAsciiWhitespace(c)
    case Digit => IsAsciiDigit(c)
    case IdentContinue => IsIdentifierContinue(c)
    case StringBody => c != '"' && c != EOF_CHAR
  }

  /** The sentinel belongs to no class, so every run stops at the end of the input. */
  lemma SentinelInNoClass(cls: Class)
    ensures !InClass(cls, EOF_CHAR)
  {
  }

  /** The end of the maximal run of `cls` characters starting at i. */
  function RunEnd(src: string, i: nat, cls: Class): (j: nat)
    requires i <= |src|
    ensures i <= j <= |src|
    ensures forall k :: i <= k < j ==> InClass(cls, src[k])
    ensures !InClass(cls, At(src, j))
    decreases |src| - i
  {
    if i < |src| && InClass(cls, src[i]) then RunEnd(src, i + 1, cls) else i
  }

  /** A run is determined by where it stops: any j with the run's two properties is its end. */
  lemma {:induction false} RunEndUnique(src: string, i: nat, j: nat, cls: Class)
    requires i <= j <= |src|
    requires forall k :: i <= k < j ==> InClass(cls, src[k])
    requires !InClass(cls, At(src, j))
    ensures RunEnd(src, i, cls) == j
    decreases j - i
  {
    if i < j {
      RunEndUnique(src, i + 1, j, cls);
    }
  }

  /**
   * The end of a number whose first digit ends at i: the rest of the digit
   * run, then a `.` and a second digit run only when a digit follows the `.`.
   */
  function NumberEnd(src: string, i: nat): (j: nat)
    requires i <= |src|
    ensures i <= j <= |src|
  {
    var k := RunEnd(src, i, Digit);
    if At(src, k) == '.' && IsAsciiDigit(At(src, k + 1)) then RunEnd(src, k + 1, Digit) else k
  }

  /* Lexical classes of whole lexemes. */

  predicate IsIdentWord(w: string) {
    |w| > 0 && IsIdentifierStart(w[0]) && forall i :: 1 <= i < |w| ==> IsIdentifierContinue(w[i])
  }

  predicate AllDigits(w: string) {
    forall i :: 0 <= i < |w| ==> IsAsciiDigit(w[i])
  }

  /** `[0-9]+(\.[0-9]+)?` */
  predicate IsNumberWord(w: string) {
    && |w| > 0
    && IsAsciiDigit(w[0])
    && (|| AllDigits(w)
        || (var k := RunEnd(w, 0, Digit);
            k + 1 < |w| && w[k] == '.' && AllDigits(w[k + 1..])))
  }

  /** A double-quoted string with no quote and no NUL inside. */
  predicate IsStringWord(w: string) {
    && |w| >= 2
    && w[0] == '"' && w[|w| - 1] == '"'
    && forall i :: 1 <= i < |w| - 1 ==> InClass(StringBody, w[i])
  }

  /** The one-character punctuators and operators both scanners share. */
  function SingleKind(c: char): Option<TokenKind> {
    match c
    case '{' => Some(LBrace)
    case '}' => Some(RBrace)
    case '(' => Some(LParen)
    case ')' => Some(RParen)
    case '[' => Some(LBrack)
    case ']' => Some(RBrack)
    case ';' => Some(Semicolon)
    case ',' => Some(Comma)
    case '.' => Some(Period)
    case '+' => Some(Plus)
    case '-' => Some(Minus)
    case '*' => Some(Star)
    case '/' => Some(Slash)
    case '%' => Some(Percent)
    case '=' => Some(Equal)
    case '<' => Some(Less)
    case '>' => Some(Greater)
    case _ => None
  }

  /** The kind of an identifier-shaped lexeme: a keyword if the table has it, else `Identifier`. */
  function WordKind(w: string): TokenKind {
    KeywordKind(w).GetOr(Identifier)
  }
}

/**
 * Tokens and source spans. `TokenKind` is the union of the kinds the token
 * definition declares and the kinds the scanners and parsers refer to
 * (`Not` and `BangEqual` included).
 */
module Tokens {
  import opened Wrappers

  datatype TokenKind =
    /* Punctuation. */
    | LParen | RParen | LBrack | RBrack | LBrace | RBrace | Period | Semicolon | Comma
    /* Keywords and names. */
    | Let | Mut | Func | Class | Identifier
    /* Literals. */
    | String | Number | True | False | Nil
    /* Arithmetic operators. */
    | StarStar | Star | Slash | Percent | Plus | Minus
    /* Assignment operators. */
    | Equal | PlusEqual | MinusEqual | StarEqual | SlashEqual | PercentEqual
    /* Comparison operators. */
    | EqualEqual | NotEqual | BangEqual | Less | LessEqual | GreaterEqual | Greater
    /* Logical operators. */
    | Or | And | Not
    | This | Return
    /* Control flow. */
    | For | While | If | Else
    | Eof

  /**
   * A range of the source text. The token definition documents `end` as
   * exclusive; the newer scanner follows that, the older one does not.
   */
  datatype Span = Span(source: string, start: nat, end: nat)
  {
    /** `Span::slice` would panic unless the range lies inside the source. */
    predicate Valid() {
      start <= end <= |source|
    }
  }

  /** `Span::slice`: the text the span covers, taking `end` as exclusive. */
  function Slice(s: Span): (text: string)
    requires s.Valid()
    ensures |text| == s.end - s.start
    ensures forall i :: 0 <= i < |text| ==> text[i] == s.source[s.start + i]
  {
    s.source[s.start .. s.end]
  }

  /** `Token::new`, `Token::span` and `Token::kind` are the constructor and its fields. */
  datatype Token = Token(span: Span, kind: TokenKind)

  /** `Token::is_eof`. */
  predicate IsEof(t: Token) {
    t.kind == Eof
  }

  /**
   * The keyword table used to reclassify identifier-shaped lexemes. The
   * function that holds it is not part of this model; the table below
   * lists every keyword-like kind of `TokenKind`, spelled in lower case.
   */
  function KeywordKind(text: string): Option<TokenKind>
  {
    match text
    case "let" => Some(Let)
    case "mut" => Some(Mut)
    case "func" => Some(Func)
    case "class" => Some(Class)
    case "true" => Some(True)
    case "false" => Some(False)
    case "nil" => Some(Nil)
    case "or" => Some(Or)
    case "and" => Some(And)
    case "not" => Some(Not)
    case "this" => Some(This)
    case "return" => Some(Return)
    case "for" => Some(For)
    case "while" => Some(While)
    case "if" => Some(If)
    case "else" => Some(Else)
    case _ => None
  }

  /** The spelling of each keyword kind. */
  function KeywordText(k: TokenKind): string {
    match k
    case Let => "let"
    case Mut => "mut"
    case Func => "func"
    case Class => "class"
    case True => "true"
    case False => "false"
    case Nil => "nil"
    case Or => "or"
    case And => "and"
    case Not => "not"
    case This => "this"
    case Return => "return"
    case For => "for"
    case While => "while"
    case If => "if"
    case Else => "else"
    case _ => ""
  }

  predicate IsKeyword(k: TokenKind) {
    KeywordText(k) != ""
  }

  /** The keyword table is a bijection between the keyword spellings and the keyword kinds. */
  lemma KeywordTableRoundTrip(text: string, k: TokenKind)
    ensures IsKeyword(k) ==> KeywordKind(KeywordText(k)) == Some(k)
    ensures KeywordKind(text).Some? ==> IsKeyword(KeywordKind(text).value) && KeywordText(KeywordKind(text).value) == text
  {
  }

  /** Kinds whose text varies from token to token; error messages leave these unquoted. */
  predicate IsVariableLength(k: TokenKind) {
    k == Identifier || k == String || k == Number
  }
}

/**
 * Character classes used by the scanners and the cursor. Sources are
 * sequences of characters; every class below agrees with the Rust standard
 * library's predicate of the same name on ASCII characters.
 */
module Chars {

  /** The sentinel both cursors return once the input is exhausted. */
  const EOF_CHAR: char := '\0'

  /** `char::is_ascii_whitespace`: space, tab, line feed, form feed, carriage return. */
  predicate IsAsciiWhitespace(c: char) {
    c == ' ' || c == '\t' || c == '\n' || c == '\U{0C}' || c == '\r'
  }

  /** `char::is_ascii_digit`. */
  predicate IsAsciiDigit(c: char) {
    '0' <= c <= '9'
  }

  /** `char::is_ascii_alphabetic`. */
  predicate IsAsciiAlphabetic(c: char) {
    ('a' <= c <= 'z') || ('A' <= c <= 'Z')
  }

  /** `char::is_ascii_alphanumeric`. */
  predicate IsAsciiAlphanumeric(c: char) {
    IsAsciiAlphabetic(c) || IsAsciiDigit(c)
  }

  /** A character that may begin an identifier in the newer scanner. */
  predicate IsIdentifierStart(c: char) {
    IsAsciiAlphabetic(c) || c == '_'
  }

  /** A character that may continue an identifier (both scanners). */
  predicate IsIdentifierContinue(c: char) {
    IsAsciiAlphanumeric(c) || c == '_'
  }

  /** The EOF sentinel is not in any of the classes the scanners loop over. */
  lemma EofCharIsUnclassified()
    ensures !IsAsciiWhitespace(EOF_CHAR) && !IsAsciiDigit(EOF_CHAR)
    ensures !IsIdentifierContinue(EOF_CHAR) && !IsIdentifierStart(EOF_CHAR)
  {
  }
}

/** Classes of characters in the C locale, and the byte order mark of UTF-8. */
module Characters {
  const BOM := ['\U{EF}', '\U{BB}', '\U{BF}']

  predicate IsSpace(c: char) {
    c == ' ' || '\t' <= c <= '\r'
  }

  predicate IsDigit(c: char) {
    '0' <= c <= '9'
  }

  predicate IsIdentifierStart(c: char) {
    'a' <= c <= 'z' || 'A' <= c <= 'Z' || c == '_'
  }

  predicate IsIdentifierChar(c: char) {
    IsIdentifierStart(c) || IsDigit(c)
  }
}

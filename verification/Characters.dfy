/** The character classes that names and numbers are made of. */
module Characters {

  predicate IsLetterOrUnderscore(c: char) {
    'A' <= c <= 'Z' || 'a' <= c <= 'z' || c == '_'
  }

  predicate IsDigit(c: char) {
    '0' <= c <= '9'
  }

  predicate IsWord(c: char) {
    IsLetterOrUnderscore(c) || IsDigit(c)
  }
}

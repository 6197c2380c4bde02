/** Kinds of characters and texts. */
module Texts {

  predicate IsDigit(c: char) {
    '0' <= c <= '9'
  }

  predicate IsSlashFree(s: string) {
    '/' !in s
  }
}

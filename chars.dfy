/** Character classes and the single-character case mapping the name
    extractors rely on.  Python's `str.isupper`, `str.lower`, `str.isspace`,
    `string.punctuation` and the regular-expression classes of the name
    pattern are restricted here to ASCII plus the accented letters the
    program names explicitly (`lowacc` and its upper-case image). */
module Chars {

  /** `[A-Z]` in a Python regular expression: ASCII capitals only. */
  predicate IsAsciiUpper(c: char) {
    'A' <= c <= 'Z'
  }

  predicate IsAsciiLower(c: char) {
    'a' <= c <= 'z'
  }

  predicate IsAsciiLetter(c: char) {
    IsAsciiUpper(c) || IsAsciiLower(c)
  }

  /** The program's `lowacc = "àäéèëîïôöùûü"`. */
  const LowerAccents: string := "àäéèëîïôöùûü"

  /** The program's `uppacc = lowacc.upper()`. */
  const UpperAccents: string := "ÀÄÉÈËÎÏÔÖÙÛÜ"

  /** A letter of `lowacc`, spelled out character by character. */
  predicate IsLowerAccent(c: char) {
    || c == 'à' || c == 'ä' || c == 'é' || c == 'è' || c == 'ë' || c == 'î'
    || c == 'ï' || c == 'ô' || c == 'ö' || c == 'ù' || c == 'û' || c == 'ü'
  }

  /** A letter of `uppacc`, spelled out character by character. */
  predicate IsUpperAccent(c: char) {
    || c == 'À' || c == 'Ä' || c == 'É' || c == 'È' || c == 'Ë' || c == 'Î'
    || c == 'Ï' || c == 'Ô' || c == 'Ö' || c == 'Ù' || c == 'Û' || c == 'Ü'
  }

  /** The spelled-out predicates are membership in the two strings, and
      each capital is its small letter moved down by 0x20. */
  lemma AccentsListed(c: char)
    ensures IsLowerAccent(c) <==> c in LowerAccents
    ensures IsUpperAccent(c) <==> c in UpperAccents
    ensures IsUpperAccent(c) ==> IsLowerAccent((c as int + 32) as char)
  {
  }

  /** `c.isupper()` for a single character of the modelled alphabet. */
  predicate IsUpper(c: char) {
    IsAsciiUpper(c) || IsUpperAccent(c)
  }

  /** `c.lower()` for a single character: capitals of the alphabet map to
      their small letter (for the Latin-1 capitals listed the distance is
      0x20, as in ASCII); every other character is left as it is. */
  function LowerChar(c: char): (r: char)
    ensures !IsUpper(r)
    ensures IsUpper(c) ==> r != c
    ensures !IsUpper(c) ==> r == c
  {
    if IsUpper(c) then (c as int + 32) as char else c
  }

  /** Python's `str.isspace()`, which is also what `\s` matches in a
      `str` pattern. */
  predicate IsSpace(c: char) {
    || ('\U{9}' <= c <= '\U{D}')
    || ('\U{1C}' <= c <= ' ')
    || c == '\U{85}' || c == '\U{A0}' || c == '\U{1680}'
    || ('\U{2000}' <= c <= '\U{200A}')
    || c == '\U{2028}' || c == '\U{2029}' || c == '\U{202F}' || c == '\U{205F}'
    || c == '\U{3000}'
  }

  /** Membership in `string.punctuation`, the 32 ASCII punctuation marks
      `!"#$%&'()*+,-./:;<=>?@[\]^_`{|}~`. */
  predicate IsPunct(c: char) {
    || ('!' <= c <= '/')
    || (':' <= c <= '@')
    || ('[' <= c <= '`')
    || ('{' <= c <= '~')
  }

  /** `[A-Za-z\.]`, the body of the civility-title prefix `[M][A-Za-z\.]+`. */
  predicate IsPrefixChar(c: char) {
    IsAsciiLetter(c) || c == '.'
  }

  /** `[A-Za-z<lowacc>\-]`, the tail of a first name. */
  predicate IsFirstNameChar(c: char) {
    IsAsciiLetter(c) || IsLowerAccent(c) || c == '-'
  }

  /** `[A-Za-z<lowacc><uppacc>\-]`, the tail of a last name. */
  predicate IsLastNameChar(c: char) {
    IsAsciiLetter(c) || IsLowerAccent(c) || IsUpperAccent(c) || c == '-'
  }

  /** No character of the name pattern's body is a line break. */
  lemma NameCharsAreNotNewline(c: char)
    requires IsAsciiUpper(c) || IsFirstNameChar(c) || IsLastNameChar(c) || c == ' '
    ensures c != '\n'
  {
  }

  /** An upper-case first letter is never stripped as punctuation. */
  lemma UpperIsNotPunct(c: char)
    requires IsUpper(c)
    ensures !IsPunct(c) && !IsSpace(c)
  {
  }
}

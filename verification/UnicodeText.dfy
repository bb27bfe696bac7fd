/** Characters as Python's `str` methods and `re` module class them, as far as the core needs it. */
module UnicodeText {
  /** White space: `str.isspace`, `\s`. */
  predicate IsSpace(c: char) {
    '\t' <= c <= '\r' || '\U{001c}' <= c <= ' ' || c == '\U{0085}' || c == '\U{00a0}' || c == '\U{1680}'
    || '\U{2000}' <= c <= '\U{200a}' || c == '\U{2028}' || c == '\U{2029}' || c == '\U{202f}' || c == '\U{205f}' || c == '\U{3000}'
  }

  /** The characters that `re.IGNORECASE` matches with an ASCII letter, by that letter in lower case. */
  function Folded(c: char): char {
    if 'A' <= c <= 'Z' then c - 'A' + 'a'
    else if c == '\U{0130}' || c == '\U{0131}' then 'i'
    else if c == '\U{017f}' then 's'
    else if c == '\U{212a}' then 'k'
    else c
  }

  /** ASCII letters, digits and underscore. */
  predicate IsWord(c: char) {
    'a' <= c <= 'z' || 'A' <= c <= 'Z' || '0' <= c <= '9' || c == '_'
  }
}

/** The character classes the host patterns use, read with ASCII meaning:
    `\w` is letters, digits and `_`; `\s` is space, tab, line feed, vertical
    tab, form feed and carriage return; `\d` is the ten decimal digits. */
module CharClass {

  /** `\w` */
  predicate IsWordChar(c: char) {
    ('a' <= c <= 'z') || ('A' <= c <= 'Z') || ('0' <= c <= '9') || c == '_'
  }

  /** `\s`: the space and the control characters tab through carriage return */
  predicate IsSpace(c: char) {
    c == ' ' || ('\t' <= c <= '\r')
  }

  /** `\d` */
  predicate IsDigit(c: char) {
    '0' <= c <= '9'
  }

  /** `[^:\s,;]`: a character that may appear in a host name */
  predicate IsHostChar(c: char) {
    c != ':' && !IsSpace(c) && c != ',' && c != ';'
  }

  /** The classes a greedy repetition ranges over: those of the host
      patterns, and the characters that may stand between the pairs of a
      host list. */
  datatype Class = Word | Space | Digit | Host | Delimiter

  /** Membership of `c` in the class `cls`. */
  predicate In(cls: Class, c: char) {
    match cls
    case Word => IsWordChar(c)
    case Space => IsSpace(c)
    case Digit => IsDigit(c)
    case Host => IsHostChar(c)
    case Delimiter => IsDelimiter(c)
  }

  /** A character that ends a pair in a host list and may stand between two
      pairs: `,`, `;` or white space. It cannot start a host, and it cannot
      continue a host, a `:` or a port. */
  predicate IsDelimiter(c: char) {
    c == ',' || c == ';' || IsSpace(c)
  }
}

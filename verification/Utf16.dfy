/** JavaScript strings: sequences of UTF-16 code units, lone surrogates included. */
module Utf16 {
  type Unit = u: int | 0 <= u < 0x10000

  type Text = seq<Unit>

  const NUL: Unit := 0

  predicate High(u: Unit) {
    0xD800 <= u < 0xDC00
  }

  predicate Low(u: Unit) {
    0xDC00 <= u < 0xE000
  }

  predicate Surrogate(u: Unit) {
    High(u) || Low(u)
  }

  /** A surrogate pair stands at the front of `s`. */
  predicate PairAhead(s: Text) {
    |s| >= 2 && High(s[0]) && Low(s[1])
  }

  /** No surrogate stands alone: the text is the UTF-16 form of a sequence of code points. */
  predicate WellFormed(s: Text) {
    if s == [] then true
    else if PairAhead(s) then WellFormed(s[2..])
    else !Surrogate(s[0]) && WellFormed(s[1..])
  }
}

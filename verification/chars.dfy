/** Character classes used by the review text normaliser. */
module Chars {

  /**
   * Python's whitespace test (`str.isspace`, and the regex class `\s` on str
   * patterns): the characters of general category Zs or bidirectional class
   * WS, B or S.
   */
  predicate IsSpace(c: char) {
    var n := c as int;
    (0x09 <= n <= 0x0D) || (0x1C <= n <= 0x20) || n == 0x85 || n == 0xA0
    || n == 0x1680 || (0x2000 <= n <= 0x200A) || n == 0x2028 || n == 0x2029
    || n == 0x202F || n == 0x205F || n == 0x3000
  }

  predicate IsLineBreak(c: char) {
    c == '\n' || c == '\r'
  }

  /**
   * Python's `lower()` on one character, for every character whose lower case
   * can survive the allow-list: ASCII capitals and the Latin-1 capitals
   * U+00C0..U+00DE (except the multiplication sign U+00D7) move down by 0x20,
   * the KELVIN SIGN U+212A becomes 'k', and the dotted capital I U+0130 becomes
   * 'i' (Python appends U+0307 COMBINING DOT ABOVE, which the allow-list drops
   * next). Every other character is left as it is.
   */
  function Lower(c: char): (r: char)
    ensures IsSpace(r) <==> IsSpace(c)
    ensures IsLineBreak(r) <==> IsLineBreak(c)
    ensures 'A' <= c <= 'Z' ==> r as int == c as int + 0x20
    ensures 0xC0 <= c as int <= 0xDE && c as int != 0xD7 ==> r as int == c as int + 0x20
    ensures c == '\U{212A}' ==> r == 'k'
    ensures c == '\U{0130}' ==> r == 'i'
    ensures InAllowList(r) && !InAllowList(c) ==> c == '\U{212A}' || c == '\U{0130}' || 'A' <= c <= 'Z' || c in "ÁÉÍÓÚÜÑ"
  {
    var n := c as int;
    if 0x41 <= n <= 0x5A || (0xC0 <= n <= 0xDE && n != 0xD7) then (n + 0x20) as char
    else if n == 0x212A then 'k'
    else if n == 0x130 then 'i'
    else c
  }

  /**
   * The explicit members of the normaliser's character class
   * `[a-z0-9áéíóúüñ¡!¿?.,:;'"()\s-]`, i.e. everything it keeps except whitespace.
   */
  predicate InAllowList(c: char) {
    ('a' <= c <= 'z') || ('0' <= c <= '9') || c in "áéíóúüñ¡!¿?.,:;'\"()-"
  }

  /** The regex filter keeps a character iff it is allow-listed or whitespace. */
  predicate KeptByFilter(c: char) {
    InAllowList(c) || IsSpace(c)
  }

  /** Allow-listed characters are visible and already lower case. */
  lemma AllowListIsVisibleLowerCase(c: char)
    requires InAllowList(c)
    ensures !IsSpace(c) && !IsLineBreak(c) && Lower(c) == c
  {
  }
}

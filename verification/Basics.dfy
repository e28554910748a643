/** Small definitions that several modules share. */
module Basics {
  type Byte = b: int | 0 <= b < 256

  type Bytes = seq<Byte>

  predicate Digit(c: char) { '0' <= c <= '9' }

  /** The characters that a dot in a regular expression does not match. */
  predicate LineEnd(c: char) { c == '\n' || c == '\r' || c == '\U{2028}' || c == '\U{2029}' }

  lemma SubsetSize<T>(a: set<T>, b: set<T>)
    requires a <= b
    ensures |a| <= |b|
  {
    assert b == a + (b - a);
  }

  /** The UTF-8 form of a character, section 3 of RFC 3629. */
  function Utf8(c: char): Bytes {
    var n := c as int;
    if n < 0x80 then [n]
    else if n < 0x800 then [0xC0 + n / 0x40, 0x80 + n % 0x40]
    else if n < 0x10000 then [0xE0 + n / 0x1000, 0x80 + n / 0x40 % 0x40, 0x80 + n % 0x40]
    else [0xF0 + n / 0x40000, 0x80 + n / 0x1000 % 0x40, 0x80 + n / 0x40 % 0x40, 0x80 + n % 0x40]
  }

  function Encoded(s: string): Bytes { if s == "" then [] else Utf8(s[0]) + Encoded(s[1..]) }

  lemma {:induction false} EncodedLast(s: string, c: char)
    ensures Encoded(s + [c]) == Encoded(s) + Utf8(c)
  {
    if s == "" {
      assert s + [c] == [c] && [c][1..] == "";
      assert Utf8(c) + [] == Utf8(c) && [] + Utf8(c) == Utf8(c);
    } else {
      assert (s + [c])[0] == s[0] && (s + [c])[1..] == s[1..] + [c];
      EncodedLast(s[1..], c);
      assert Utf8(s[0]) + (Encoded(s[1..]) + Utf8(c)) == Utf8(s[0]) + Encoded(s[1..]) + Utf8(c);
    }
  }
}

/** Go strings as byte sequences: `len` counts bytes, and `strings.Index`,
    `strings.LastIndex` and the ASCII character classes used by the validators
    all work byte by byte. */
module Bytes {

  newtype byte = b: int | 0 <= b < 256

  type Bytes = seq<byte>

  const At: byte := 0x40       // '@'
  const Dot: byte := 0x2E      // '.'
  const Minus: byte := 0x2D    // '-'
  const Plus: byte := 0x2B     // '+'
  const Percent: byte := 0x25  // '%'
  const Underscore: byte := 0x5F  // '_'

  predicate IsAsciiLetter(c: byte) {
    (0x41 <= c <= 0x5A) || (0x61 <= c <= 0x7A)
  }

  predicate IsAsciiDigit(c: byte) {
    0x30 <= c <= 0x39
  }

  /** Position of the first occurrence of `c` in `s`, or -1 (strings.Index). */
  function IndexOf(s: Bytes, c: byte): (r: int)
    ensures -1 <= r < |s|
    ensures r == -1 <==> c !in s
    ensures 0 <= r ==> s[r] == c && c !in s[..r]
  {
    if |s| == 0 then -1
    else if s[0] == c then 0
    else
      var k := IndexOf(s[1..], c);
      if k == -1 then -1
      else
        assert s[..k + 1] == [s[0]] + s[1..][..k];
        k + 1
  }

  /** Position of the last occurrence of `c` in `s`, or -1 (strings.LastIndex). */
  function LastIndexOf(s: Bytes, c: byte): (r: int)
    ensures -1 <= r < |s|
    ensures r == -1 <==> c !in s
    ensures 0 <= r ==> s[r] == c && c !in s[r + 1..]
  {
    if |s| == 0 then -1
    else if s[|s| - 1] == c then |s| - 1
    else
      var k := LastIndexOf(s[..|s| - 1], c);
      if k == -1 then
        assert s == s[..|s| - 1] + [s[|s| - 1]];
        -1
      else
        assert s[k + 1..] == s[..|s| - 1][k + 1..] + [s[|s| - 1]];
        k
  }

  /** The first occurrence is determined by its two defining facts. */
  lemma IndexOfUnique(s: Bytes, c: byte, i: int)
    requires 0 <= i < |s| && s[i] == c && c !in s[..i]
    ensures IndexOf(s, c) == i
  {
  }

  lemma LastIndexOfUnique(s: Bytes, c: byte, i: int)
    requires 0 <= i < |s| && s[i] == c && c !in s[i + 1..]
    ensures LastIndexOf(s, c) == i
  {
  }
}

/** Code points and their bytes, one for every length: section 3 of RFC 3629, and the longer forms of RFC 2279. */
module Utf8Examples {
  import opened Wrappers
  import opened Utf8

  lemma KnownEncodings()
    ensures Encoded(0x41) == [0x41]
    ensures Encoded(0xE9) == [0xC3, 0xA9]
    ensures Encoded(0x3042) == [0xE3, 0x81, 0x82]
    ensures Encoded(0x1F600) == [0xF0, 0x9F, 0x98, 0x80]
    ensures Encoded(0x20_0000) == [0xF8, 0x88, 0x80, 0x80, 0x80]
    ensures Encoded(0x7FFF_FFFF) == [0xFD, 0xBF, 0xBF, 0xBF, 0xBF, 0xBF]
  {}

  lemma KnownDecodings(rest: seq<byte>)
    ensures SplitFirst([0x41] + rest) == Some(Split(0x41, rest))
    ensures SplitFirst([0xC3, 0xA9] + rest) == Some(Split(0xE9, rest))
    ensures SplitFirst([0xE3, 0x81, 0x82] + rest) == Some(Split(0x3042, rest))
    ensures SplitFirst([0xF0, 0x9F, 0x98, 0x80] + rest) == Some(Split(0x1F600, rest))
    ensures SplitFirst([0xF8, 0x88, 0x80, 0x80, 0x80] + rest) == Some(Split(0x20_0000, rest))
    ensures SplitFirst([0xFD, 0xBF, 0xBF, 0xBF, 0xBF, 0xBF] + rest) == Some(Split(0x7FFF_FFFF, rest))
  {
    hide SplitFirst, Encoded;
    KnownEncodings();
    EncodedIsSplit(0x41, rest);
    EncodedIsSplit(0xE9, rest);
    EncodedIsSplit(0x3042, rest);
    EncodedIsSplit(0x1F600, rest);
    EncodedIsSplit(0x20_0000, rest);
    EncodedIsSplit(0x7FFF_FFFF, rest);
  }

  // The bits of every code point of Unicode beyond ASCII, six to a trailing byte.

  lemma TwoBytes(x: nat, y: nat)
    requires 2 <= x < 0x20 && y < 0x40
    ensures Encoded(64 * x + y) == [0xC0 + x, 0x80 + y]
  {}

  lemma ThreeBytes(x: nat, y: nat, z: nat)
    requires x < 0x10 && y < 0x40 && z < 0x40 && 64 * x + y >= 0x20
    ensures Encoded(4096 * x + 64 * y + z) == [0xE0 + x, 0x80 + y, 0x80 + z]
  {
    var c := 4096 * x + 64 * y + z;
    assert c / 0x40 == 64 * x + y && c % 64 == z;
    assert c / 0x1000 == x;
  }

  lemma FourBytes(w: nat, x: nat, y: nat, z: nat)
    requires w < 8 && x < 0x40 && y < 0x40 && z < 0x40 && 64 * w + x >= 0x10
    ensures Encoded(0x4_0000 * w + 4096 * x + 64 * y + z) == [0xF0 + w, 0x80 + x, 0x80 + y, 0x80 + z]
  {
    var c := 0x4_0000 * w + 4096 * x + 64 * y + z;
    assert c / 0x40 == 4096 * w + 64 * x + y && c % 64 == z;
    assert c / 0x1000 == 64 * w + x;
    assert c / 0x4_0000 == w;
  }
}

/**
 * Encoding, decoding and iterating over UTF-8: src/base/util.cc, lines 62 to 97, 352 to 367 and 382 to 586.
 *
 * Bytes and code points are numbers; shifts and masks are divisions and remainders by powers of two.
 */
module Utf8 {
  import opened Wrappers

  type byte = x: nat | x < 0x100
  type char32 = x: nat | x < 0x1_0000_0000

  // Decoding.

  predicate IsTrailing(b: byte) {
    0x80 <= b < 0xC0
  }

  /** What a leading byte announces: a length, the least and the greatest code point, and its own bits. */
  datatype Lead = Lead(length: nat, least: char32, greatest: char32, bits: nat)

  function LeadOf(b: byte): Option<Lead> {
    if b < 0x80 then Some(Lead(1, 0, 0x7F, b))
    else if IsTrailing(b) then None
    else if b < 0xE0 then Some(Lead(2, 0x80, 0x7FF, b % 0x20))
    else if b < 0xF0 then Some(Lead(3, 0x800, 0xFFFF, b % 0x10))
    else if b < 0xF8 then Some(Lead(4, 0x1_0000, 0x1F_FFFF, b % 0x08))
    else if b < 0xFC then Some(Lead(5, 0x20_0000, 0x3FF_FFFF, b % 0x04))
    else if b < 0xFE then Some(Lead(6, 0x400_0000, 0x7FFF_FFFF, b % 0x02))
    else None
  }

  /** The bits of trailing bytes after those of a leading byte. */
  function Bits(high: nat, trailing: seq<byte>): nat
    decreases |trailing|
  {
    if trailing == [] then high else Bits(high * 64 + trailing[0] % 64, trailing[1..])
  }

  predicate AreTrailing(bytes: seq<byte>) {
    forall i | 0 <= i < |bytes| :: IsTrailing(bytes[i])
  }

  /** A code point at the front of a string, or at its back, and the rest of the string. */
  datatype Split = Split(codepoint: char32, rest: seq<byte>)

  function SplitFirst(s: seq<byte>): Option<Split> {
    if s == [] || LeadOf(s[0]).None? then
      None
    else
      var lead := LeadOf(s[0]).value;
      if |s| < lead.length || !AreTrailing(s[1..lead.length]) then
        None
      else
        var codepoint := Bits(lead.bits, s[1..lead.length]);
        if lead.least <= codepoint <= lead.greatest then Some(Split(codepoint, s[lead.length..])) else None
  }

  lemma SplitFirstIsShorter(s: seq<byte>)
    ensures SplitFirst(s).Some? ==> |SplitFirst(s).value.rest| < |s|
  {}

  /** The code points up to the first byte that does not belong to one. */
  function Decoded(s: seq<byte>): seq<char32>
    decreases |s|
  {
    SplitFirstIsShorter(s);
    if SplitFirst(s).None? then [] else [SplitFirst(s).value.codepoint] + Decoded(SplitFirst(s).value.rest)
  }

  predicate IsValid(s: seq<byte>)
    decreases |s|
  {
    SplitFirstIsShorter(s);
    s == [] || (SplitFirst(s).Some? && IsValid(SplitFirst(s).value.rest))
  }

  /** How many trailing bytes end a string. */
  function TrailingAtEnd(s: seq<byte>): (n: nat)
    ensures n <= |s|
  {
    if s == [] || !IsTrailing(s[|s| - 1]) then 0 else 1 + TrailingAtEnd(s[..|s| - 1])
  }

  lemma {:induction false} TrailingAtEndIs(s: seq<byte>, n: nat)
    requires n <= |s| && AreTrailing(s[|s| - n..])
    requires n < |s| ==> !IsTrailing(s[|s| - n - 1])
    ensures TrailingAtEnd(s) == n
    decreases n
  {
    hide AreTrailing, IsTrailing;
    if n > 0 {
      var shorter := s[..|s| - 1];
      LastIsTrailing(s, n);
      TrailingAtEndIs(shorter, n - 1);
    }
  }

  lemma LastIsTrailing(s: seq<byte>, n: nat)
    requires 0 < n <= |s| && AreTrailing(s[|s| - n..])
    ensures IsTrailing(s[|s| - 1])
    ensures AreTrailing(s[..|s| - 1][|s| - n..])
  {
    assert s[|s| - n..][n - 1] == s[|s| - 1];
    assert s[..|s| - 1][|s| - n..] == s[|s| - n..][..n - 1];
  }

  function SplitLast(s: seq<byte>): Option<Split> {
    var n := TrailingAtEnd(s);
    if n == |s| then
      None
    else
      var k := |s| - n - 1;
      var piece := SplitFirst(s[k..]);
      if piece.None? || piece.value.rest != [] then None else Some(Split(piece.value.codepoint, s[..k]))
  }

  /** The code point that begins at the last byte that is not a trailing one, whatever comes after it, or 0. */
  function LastBegun(s: seq<byte>): char32 {
    var n := TrailingAtEnd(s);
    if n == |s| then 0
    else
      var piece := SplitFirst(s[|s| - n - 1..]);
      if piece.None? then 0 else piece.value.codepoint
  }

  /** Trailing bytes in excess: the split fails, but the code point before them is there. */
  lemma TrailingInExcess()
    ensures SplitLast([0x61, 0x80]) == None && LastBegun([0x61, 0x80]) == 0x61
  {
    var s: seq<byte> := [0x61, 0x80];
    TrailingAtEndIs(s, 1);
    assert s[0..] == s && s[1..] == [0x80];
    assert SplitFirst(s) == Some(Split(0x61, [0x80]));
  }

  method SplitFirstChar32(s: seq<byte>) returns (ok: bool, first: char32, rest: seq<byte>)
    ensures (if ok then Some(Split(first, rest)) else None) == SplitFirst(s)
    ensures !ok ==> first == 0 && rest == []
  {
    if s == [] {
      return false, 0, [];
    }
    var lead := LeadOf(s[0]);
    if lead.None? {
      return false, 0, [];
    }
    if |s| < lead.value.length {
      return false, 0, [];
    }
    var result: nat := lead.value.bits;
    var i := 1;
    while i < lead.value.length
      invariant 1 <= i <= lead.value.length
      invariant AreTrailing(s[1..i])
      invariant Bits(result, s[i..lead.value.length]) == Bits(lead.value.bits, s[1..lead.value.length])
    {
      if !IsTrailing(s[i]) {
        assert s[1..lead.value.length][i - 1] == s[i];
        return false, 0, [];
      }
      assert s[i..lead.value.length][1..] == s[i + 1..lead.value.length];
      assert s[1..i + 1] == s[1..i] + [s[i]];
      result := result * 64 + s[i] % 64;
      i := i + 1;
    }
    assert s[i..i] == [];
    if result < lead.value.least || lead.value.greatest < result {
      return false, 0, [];
    }
    return true, result, s[lead.value.length..];
  }

  method SplitLastChar32(s: seq<byte>) returns (ok: bool, rest: seq<byte>, last: char32)
    ensures (if ok then Some(Split(last, rest)) else None) == SplitLast(s)
    ensures last == LastBegun(s) && (!ok ==> rest == [])
  {
    hide SplitFirst, TrailingAtEnd;
    if s == [] {
      return false, [], 0;
    }
    var n := 0;
    while n < |s| && IsTrailing(s[|s| - 1 - n])
      invariant n <= |s|
      invariant AreTrailing(s[|s| - n..])
    {
      assert s[|s| - n - 1..] == [s[|s| - n - 1]] + s[|s| - n..];
      n := n + 1;
    }
    TrailingAtEndIs(s, n);
    if n == |s| {
      return false, [], 0;
    }
    var resultPiece;
    ok, last, resultPiece := SplitFirstChar32(s[|s| - n - 1..]);
    if !ok {
      return false, [], 0;
    }
    if resultPiece != [] {
      return false, [], last;
    }
    rest := s[..|s| - n - 1];
  }

  method IsValidUtf8(s: seq<byte>) returns (valid: bool)
    ensures valid == IsValid(s)
  {
    hide SplitFirst;
    var rest := s;
    while rest != []
      invariant IsValid(rest) == IsValid(s)
      decreases |rest|
    {
      SplitFirstIsShorter(rest);
      var ok, first;
      ok, first, rest := SplitFirstChar32(rest);
      if !ok {
        return false;
      }
    }
    return true;
  }

  method Utf8ToUtf32(s: seq<byte>) returns (codepoints: seq<char32>)
    ensures codepoints == Decoded(s)
  {
    hide SplitFirst;
    codepoints := [];
    var rest := s;
    while true
      invariant codepoints + Decoded(rest) == Decoded(s)
      decreases |rest|
    {
      SplitFirstIsShorter(rest);
      ghost var before := rest;
      var ok, codepoint;
      ok, codepoint, rest := SplitFirstChar32(rest);
      if !ok {
        assert Decoded(before) == [];
        break;
      }
      assert Decoded(before) == [codepoint] + Decoded(rest);
      codepoints := codepoints + [codepoint];
    }
  }

  // Encoding.

  // Six bits of a code point each, from the lowest, and what is left for a leading byte.

  function Digit0(c: nat): (d: nat) ensures d < 64 { c % 64 }
  function Digit1(c: nat): (d: nat) ensures d < 64 { c / 0x40 % 64 }
  function Digit2(c: nat): (d: nat) ensures d < 64 { c / 0x1000 % 64 }
  function Digit3(c: nat): (d: nat) ensures d < 64 { c / 0x4_0000 % 64 }
  function Digit4(c: nat): (d: nat) ensures d < 64 { c / 0x100_0000 % 64 }
  function Top2(c: nat): (d: nat) ensures d < 0x20 { c / 0x40 % 0x20 }
  function Top3(c: nat): (d: nat) ensures d < 0x10 { c / 0x1000 % 0x10 }
  function Top4(c: nat): (d: nat) ensures d < 0x08 { c / 0x4_0000 % 0x08 }
  function Top5(c: nat): (d: nat) ensures d < 0x04 { c / 0x100_0000 % 0x04 }
  function Top6(c: nat): (d: nat) ensures d < 0x02 { c / 0x4000_0000 % 0x02 }

  function Encoded(c: char32): (bytes: seq<byte>)
    ensures |bytes| <= 6
  {
    if c == 0 then
      []
    else if c < 0x80 then
      [c]
    else if c < 0x800 then
      [0xC0 + Top2(c), 0x80 + Digit0(c)]
    else if c < 0x1_0000 then
      [0xE0 + Top3(c), 0x80 + Digit1(c), 0x80 + Digit0(c)]
    else if c < 0x20_0000 then
      [0xF0 + Top4(c), 0x80 + Digit2(c), 0x80 + Digit1(c), 0x80 + Digit0(c)]
    else if c < 0x800_0000 then
      [0xF8 + Top5(c), 0x80 + Digit3(c), 0x80 + Digit2(c), 0x80 + Digit1(c), 0x80 + Digit0(c)]
    else
      [0xFC + Top6(c), 0x80 + Digit4(c), 0x80 + Digit3(c), 0x80 + Digit2(c), 0x80 + Digit1(c),
       0x80 + Digit0(c)]
  }

  /** Writes the bytes and a terminating zero. */
  method CodepointToUtf8(c: char32, output: array<byte>) returns (length: nat)
    requires output.Length >= 7
    modifies output
    ensures length == |Encoded(c)|
    ensures output[..length] == Encoded(c) && output[length] == 0
    ensures forall i | length < i < output.Length :: output[i] == old(output[i])
  {
    hide Digit0, Digit1, Digit2, Digit3, Digit4, Top2, Top3, Top4, Top5, Top6;
    if c == 0 {
      output[0] := 0;
      assert output[..0] == Encoded(c);
      return 0;
    }
    if c < 0x80 {
      output[0] := c;
      output[1] := 0;
      assert output[..1] == Encoded(c);
      return 1;
    }
    if c < 0x800 {
      output[0] := 0xC0 + Top2(c);
      output[1] := 0x80 + Digit0(c);
      output[2] := 0;
      assert output[..2] == Encoded(c);
      return 2;
    }
    if c < 0x1_0000 {
      output[0] := 0xE0 + Top3(c);
      output[1] := 0x80 + Digit1(c);
      output[2] := 0x80 + Digit0(c);
      output[3] := 0;
      assert output[..3] == Encoded(c);
      return 3;
    }
    if c < 0x20_0000 {
      output[0] := 0xF0 + Top4(c);
      output[1] := 0x80 + Digit2(c);
      output[2] := 0x80 + Digit1(c);
      output[3] := 0x80 + Digit0(c);
      output[4] := 0;
      assert output[..4] == Encoded(c);
      return 4;
    }
    if c < 0x800_0000 {
      output[0] := 0xF8 + Top5(c);
      output[1] := 0x80 + Digit3(c);
      output[2] := 0x80 + Digit2(c);
      output[3] := 0x80 + Digit1(c);
      output[4] := 0x80 + Digit0(c);
      output[5] := 0;
      assert output[..5] == Encoded(c);
      return 5;
    }
    output[0] := 0xFC + Top6(c);
    output[1] := 0x80 + Digit4(c);
    output[2] := 0x80 + Digit3(c);
    output[3] := 0x80 + Digit2(c);
    output[4] := 0x80 + Digit1(c);
    output[5] := 0x80 + Digit0(c);
    output[6] := 0;
    assert output[..6] == Encoded(c);
    return 6;
  }

  function AllEncoded(codepoints: seq<char32>): seq<byte> {
    if codepoints == [] then [] else Encoded(codepoints[0]) + AllEncoded(codepoints[1..])
  }

  method Utf32ToUtf8(codepoints: seq<char32>) returns (output: seq<byte>)
    ensures output == AllEncoded(codepoints)
  {
    hide Encoded;
    output := [];
    for i := 0 to |codepoints|
      invariant output + AllEncoded(codepoints[i..]) == AllEncoded(codepoints)
    {
      assert codepoints[i..][1..] == codepoints[i + 1..];
      var buf := new byte[7];
      var length := CodepointToUtf8(codepoints[i], buf);
      output := output + buf[..length];
    }
  }

  // Round trips.

  /** What the encoder writes so that the decoder reads it: not zero, and of a length the decoder agrees with. */
  predicate Survives(c: char32) {
    0 < c < 0x400_0000 || 0x800_0000 <= c < 0x8000_0000
  }

  lemma OneTrailing(high: nat, d: nat, rest: seq<byte>)
    requires d < 64
    ensures IsTrailing(0x80 + d)
    ensures Bits(high, [0x80 + d] + rest) == Bits(high * 64 + d, rest)
  {
    assert ([0x80 + d] + rest)[1..] == rest;
  }

  lemma NoTrailing(high: nat)
    ensures Bits(high, []) == high
  {}

  /** The bits of one to five trailing bytes. */
  lemma TrailingBits(high: nat, d4: nat, d3: nat, d2: nat, d1: nat, d0: nat)
    requires d4 < 64 && d3 < 64 && d2 < 64 && d1 < 64 && d0 < 64
    ensures Bits(high, [0x80 + d0]) == high * 64 + d0
    ensures Bits(high, [0x80 + d1, 0x80 + d0]) == (high * 64 + d1) * 64 + d0
    ensures Bits(high, [0x80 + d2, 0x80 + d1, 0x80 + d0]) == ((high * 64 + d2) * 64 + d1) * 64 + d0
    ensures Bits(high, [0x80 + d3, 0x80 + d2, 0x80 + d1, 0x80 + d0]) == (((high * 64 + d3) * 64 + d2) * 64 + d1) * 64 + d0
    ensures Bits(high, [0x80 + d4, 0x80 + d3, 0x80 + d2, 0x80 + d1, 0x80 + d0])
            == ((((high * 64 + d4) * 64 + d3) * 64 + d2) * 64 + d1) * 64 + d0
  {
    hide Bits;
    TrailingBits1(high, d0);
    TrailingBits2(high, d1, d0);
    TrailingBits3(high, d2, d1, d0);
    TrailingBits4(high, d3, d2, d1, d0);
    OneTrailing(high, d4, [0x80 + d3, 0x80 + d2, 0x80 + d1, 0x80 + d0]);
    TrailingBits4(high * 64 + d4, d3, d2, d1, d0);
    assert [0x80 + d4] + [0x80 + d3, 0x80 + d2, 0x80 + d1, 0x80 + d0]
        == [0x80 + d4, 0x80 + d3, 0x80 + d2, 0x80 + d1, 0x80 + d0];
  }

  lemma TrailingBits1(high: nat, d0: nat)
    requires d0 < 64
    ensures Bits(high, [0x80 + d0]) == high * 64 + d0
  {
    OneTrailing(high, d0, []);
    assert [0x80 + d0] + [] == [0x80 + d0];
    NoTrailing(high * 64 + d0);
  }

  lemma TrailingBits2(high: nat, d1: nat, d0: nat)
    requires d1 < 64 && d0 < 64
    ensures Bits(high, [0x80 + d1, 0x80 + d0]) == (high * 64 + d1) * 64 + d0
  {
    hide Bits;
    OneTrailing(high, d1, [0x80 + d0]);
    assert [0x80 + d1] + [0x80 + d0] == [0x80 + d1, 0x80 + d0];
    TrailingBits1(high * 64 + d1, d0);
  }

  lemma TrailingBits3(high: nat, d2: nat, d1: nat, d0: nat)
    requires d2 < 64 && d1 < 64 && d0 < 64
    ensures Bits(high, [0x80 + d2, 0x80 + d1, 0x80 + d0]) == ((high * 64 + d2) * 64 + d1) * 64 + d0
  {
    hide Bits;
    OneTrailing(high, d2, [0x80 + d1, 0x80 + d0]);
    assert [0x80 + d2] + [0x80 + d1, 0x80 + d0] == [0x80 + d2, 0x80 + d1, 0x80 + d0];
    TrailingBits2(high * 64 + d2, d1, d0);
  }

  lemma TrailingBits4(high: nat, d3: nat, d2: nat, d1: nat, d0: nat)
    requires d3 < 64 && d2 < 64 && d1 < 64 && d0 < 64
    ensures Bits(high, [0x80 + d3, 0x80 + d2, 0x80 + d1, 0x80 + d0]) == (((high * 64 + d3) * 64 + d2) * 64 + d1) * 64 + d0
  {
    hide Bits;
    OneTrailing(high, d3, [0x80 + d2, 0x80 + d1, 0x80 + d0]);
    assert [0x80 + d3] + [0x80 + d2, 0x80 + d1, 0x80 + d0] == [0x80 + d3, 0x80 + d2, 0x80 + d1, 0x80 + d0];
    TrailingBits3(high * 64 + d3, d2, d1, d0);
  }

  /** Dividing by 64 again and again takes the digits off. */
  lemma Quotients(c: nat)
    ensures c == (c / 0x40) * 64 + Digit0(c)
    ensures c / 0x40 == (c / 0x1000) * 64 + Digit1(c)
    ensures c / 0x1000 == (c / 0x4_0000) * 64 + Digit2(c)
    ensures c / 0x4_0000 == (c / 0x100_0000) * 64 + Digit3(c)
    ensures c / 0x100_0000 == (c / 0x4000_0000) * 64 + Digit4(c)
  {
    assert c / 0x1000 == c / 0x40 / 64;
    assert c / 0x4_0000 == c / 0x1000 / 64;
    assert c / 0x100_0000 == c / 0x4_0000 / 64;
    assert c / 0x4000_0000 == c / 0x100_0000 / 64;
  }

  lemma Tops(c: nat)
    ensures c < 0x800 ==> Top2(c) == c / 0x40
    ensures c < 0x1_0000 ==> Top3(c) == c / 0x1000
    ensures c < 0x20_0000 ==> Top4(c) == c / 0x4_0000
    ensures c < 0x400_0000 ==> Top5(c) == c / 0x100_0000
    ensures c < 0x8000_0000 ==> Top6(c) == c / 0x4000_0000
  {}

  lemma LeadOfTop(top: nat)
    ensures top < 0x20 ==> LeadOf(0xC0 + top) == Some(Lead(2, 0x80, 0x7FF, top))
    ensures top < 0x10 ==> LeadOf(0xE0 + top) == Some(Lead(3, 0x800, 0xFFFF, top))
    ensures top < 0x08 ==> LeadOf(0xF0 + top) == Some(Lead(4, 0x1_0000, 0x1F_FFFF, top))
    ensures top < 0x04 ==> LeadOf(0xF8 + top) == Some(Lead(5, 0x20_0000, 0x3FF_FFFF, top))
    ensures top < 0x02 ==> LeadOf(0xFC + top) == Some(Lead(6, 0x400_0000, 0x7FFF_FFFF, top))
  {}

  /** The bits of the leading and the trailing bytes of an encoded code point are the code point. */
  lemma EncodedBits(c: char32)
    requires Survives(c) && c >= 0x80
    ensures
      var bytes := Encoded(c);
      && bytes != []
      && AreTrailing(bytes[1..])
      && LeadOf(bytes[0]).Some?
      && Bits(LeadOf(bytes[0]).value.bits, bytes[1..]) == c
  {
    hide Bits, Digit0, Digit1, Digit2, Digit3, Digit4, Top2, Top3, Top4, Top5, Top6, LeadOf;
    var bytes := Encoded(c);
    Quotients(c);
    Tops(c);
    if c < 0x800 {
      LeadOfTop(Top2(c));
      TrailingBits(Top2(c), 0, 0, 0, 0, Digit0(c));
      assert bytes[1..] == [0x80 + Digit0(c)];
    } else if c < 0x1_0000 {
      LeadOfTop(Top3(c));
      TrailingBits(Top3(c), 0, 0, 0, Digit1(c), Digit0(c));
      assert bytes[1..] == [0x80 + Digit1(c), 0x80 + Digit0(c)];
    } else if c < 0x20_0000 {
      LeadOfTop(Top4(c));
      TrailingBits(Top4(c), 0, 0, Digit2(c), Digit1(c), Digit0(c));
      assert bytes[1..] == [0x80 + Digit2(c), 0x80 + Digit1(c), 0x80 + Digit0(c)];
    } else if c < 0x400_0000 {
      LeadOfTop(Top5(c));
      TrailingBits(Top5(c), 0, Digit3(c), Digit2(c), Digit1(c), Digit0(c));
      assert bytes[1..] == [0x80 + Digit3(c), 0x80 + Digit2(c), 0x80 + Digit1(c), 0x80 + Digit0(c)];
    } else {
      LeadOfTop(Top6(c));
      TrailingBits(Top6(c), Digit4(c), Digit3(c), Digit2(c), Digit1(c), Digit0(c));
      assert bytes[1..] == [0x80 + Digit4(c), 0x80 + Digit3(c), 0x80 + Digit2(c), 0x80 + Digit1(c), 0x80 + Digit0(c)];
    }
  }

  /** The leading byte of an encoded code point and the trailing ones. */
  lemma EncodedPieces(c: char32)
    requires Survives(c)
    ensures
      var bytes := Encoded(c);
      && bytes != []
      && LeadOf(bytes[0]).Some?
      && LeadOf(bytes[0]).value.length == |bytes|
      && LeadOf(bytes[0]).value.least <= c <= LeadOf(bytes[0]).value.greatest
      && AreTrailing(bytes[1..])
      && Bits(LeadOf(bytes[0]).value.bits, bytes[1..]) == c
  {
    hide Bits, Digit0, Digit1, Digit2, Digit3, Digit4, Top2, Top3, Top4, Top5, Top6, LeadOf, AreTrailing;
    if c < 0x80 {
      NoTrailing(c);
      LeadOfAscii(c);
      assert Encoded(c)[1..] == [];
      NothingIsTrailing();
    } else {
      EncodedBits(c);
      LeadOfTop(Top2(c));
      LeadOfTop(Top3(c));
      LeadOfTop(Top4(c));
      LeadOfTop(Top5(c));
      LeadOfTop(Top6(c));
    }
  }

  lemma LeadOfAscii(b: byte)
    requires b < 0x80
    ensures LeadOf(b) == Some(Lead(1, 0, 0x7F, b))
  {}

  lemma NothingIsTrailing()
    ensures AreTrailing([])
  {}

  lemma EncodedIsSplit(c: char32, rest: seq<byte>)
    requires Survives(c)
    ensures SplitFirst(Encoded(c) + rest) == Some(Split(c, rest))
  {
    hide Encoded, LeadOf, Bits;
    EncodedPieces(c);
    var bytes := Encoded(c);
    assert (bytes + rest)[1..|bytes|] == bytes[1..];
    assert (bytes + rest)[|bytes|..] == rest;
  }

  /** What does not survive is read as something else, if at all. */
  lemma EncodedIsMisread(c: char32, rest: seq<byte>)
    requires !Survives(c) && c != 0
    ensures
      var split := SplitFirst(Encoded(c) + rest);
      split.Some? ==> split.value.codepoint != c
  {
    hide Bits, Digit0, Digit1, Digit2, Digit3, Digit4, Top5, Top6;
    var bytes := Encoded(c);
    assert (bytes + rest)[0] == bytes[0];
    assert LeadOf(bytes[0]).value.greatest < c;
  }

  lemma {:induction false} NoZeroByte(codepoints: seq<char32>)
    ensures forall b | b in AllEncoded(codepoints) :: b != 0
  {
    hide Digit0, Digit1, Digit2, Digit3, Digit4, Top2, Top3, Top4, Top5, Top6;
    if codepoints != [] {
      NoZeroByte(codepoints[1..]);
    }
  }

  /** Code points come back from UTF-8 exactly when all of them survive. */
  lemma {:induction false} CodepointsComeBack(codepoints: seq<char32>)
    ensures Decoded(AllEncoded(codepoints)) == codepoints <==> forall i | 0 <= i < |codepoints| :: Survives(codepoints[i])
  {
    hide Encoded, SplitFirst, Survives;
    if codepoints != [] {
      var c, rest := codepoints[0], codepoints[1..];
      var s := AllEncoded(codepoints);
      CodepointsComeBack(rest);
      assert codepoints == [c] + rest;
      if Survives(c) {
        EncodedIsSplit(c, AllEncoded(rest));
        assert Decoded(s) == [c] + Decoded(AllEncoded(rest));
        assert Decoded(s)[1..] == Decoded(AllEncoded(rest));
        assert forall i | 0 <= i < |rest| :: rest[i] == codepoints[i + 1];
      } else if c != 0 {
        EncodedIsMisread(c, AllEncoded(rest));
        assert Decoded(s) == [] || Decoded(s)[0] != c;
      } else {
        NoZeroByte(codepoints);
        FirstIsNotZero(s);
        assert Decoded(s) == [] || Decoded(s)[0] != c;
      }
    } else {
      NothingDecoded();
    }
  }

  lemma NothingDecoded()
    ensures Decoded([]) == []
  {}

  lemma FirstIsNotZero(s: seq<byte>)
    requires forall b | b in s :: b != 0
    ensures SplitFirst(s).Some? ==> SplitFirst(s).value.codepoint != 0
  {
    if s != [] {
      assert s[0] in s;
      NoTrailing(s[0]);
    }
  }

  // Bytes that are decoded and encoded again.

  /** The bytes a decoded code point was read from are as many as its encoding has, or more if it does not survive. */
  lemma DecodedLength(s: seq<byte>)
    requires SplitFirst(s).Some?
    ensures
      var Split(c, rest) := SplitFirst(s).value;
      && |rest| < |s|
      && (if Survives(c) then |Encoded(c)| == |s| - |rest| else |Encoded(c)| < |s| - |rest|)
  {
    hide Bits, Digit0, Digit1, Digit2, Digit3, Digit4, Top2, Top3, Top4, Top5, Top6;
    if s[0] < 0x80 {
      NoTrailing(s[0]);
    }
  }

  /** Six bits at a time, a number has one notation. */
  lemma {:induction false} BitsAreUnique(high: nat, a: seq<byte>, high': nat, b: seq<byte>)
    requires |a| == |b| && AreTrailing(a) && AreTrailing(b)
    requires Bits(high, a) == Bits(high', b)
    ensures high == high' && a == b
    decreases |a|
  {
    if a != [] {
      BitsAreUnique(high * 64 + a[0] % 64, a[1..], high' * 64 + b[0] % 64, b[1..]);
      assert a == [a[0]] + a[1..] && b == [b[0]] + b[1..];
      assert a[0] == b[0];
    } else {
      NoTrailing(high);
      NoTrailing(high');
    }
  }

  /** What a leading byte is without its own bits. */
  function LeadMark(length: nat): nat {
    if length == 1 then 0
    else if length == 2 then 0xC0
    else if length == 3 then 0xE0
    else if length == 4 then 0xF0
    else if length == 5 then 0xF8
    else 0xFC
  }

  lemma LeadIsMarkAndBits(b: byte)
    ensures LeadOf(b).Some? ==> b == LeadMark(LeadOf(b).value.length) + LeadOf(b).value.bits
  {}

  lemma LeadIsUnique(a: byte, b: byte)
    requires LeadOf(a).Some? && LeadOf(b).Some?
    requires LeadOf(a).value.length == LeadOf(b).value.length && LeadOf(a).value.bits == LeadOf(b).value.bits
    ensures a == b
  {
    hide LeadOf, LeadMark;
    LeadIsMarkAndBits(a);
    LeadIsMarkAndBits(b);
  }

  /** A decoded code point that survives was read from its encoding. */
  lemma DecodedIsEncoded(s: seq<byte>)
    requires SplitFirst(s).Some? && Survives(SplitFirst(s).value.codepoint)
    ensures s == Encoded(SplitFirst(s).value.codepoint) + SplitFirst(s).value.rest
  {
    hide Bits, Encoded, AreTrailing, LeadOf;
    var Split(c, rest) := SplitFirst(s).value;
    var lead := LeadOf(s[0]).value;
    var bytes := Encoded(c);
    DecodedLength(s);
    EncodedPieces(c);
    LeadHasLength(s[0]);
    BitsAreUnique(lead.bits, s[1..lead.length], LeadOf(bytes[0]).value.bits, bytes[1..]);
    LeadIsUnique(s[0], bytes[0]);
    assert bytes == [bytes[0]] + bytes[1..];
    assert s == [s[0]] + s[1..lead.length] + rest;
  }

  lemma LeadHasLength(b: byte)
    ensures LeadOf(b).Some? ==> LeadOf(b).value.length >= 1
  {}

  lemma {:induction false} DecodedLengths(s: seq<byte>)
    requires IsValid(s)
    ensures |AllEncoded(Decoded(s))| <= |s|
    ensures (exists i | 0 <= i < |Decoded(s)| :: !Survives(Decoded(s)[i])) ==> |AllEncoded(Decoded(s))| < |s|
    decreases |s|
  {
    hide SplitFirst, Encoded, Survives;
    if s == [] {
      NothingDecoded();
    } else {
      var Split(c, rest) := SplitFirst(s).value;
      DecodedLength(s);
      DecodedLengths(rest);
      assert Decoded(s) == [c] + Decoded(rest);
      assert Decoded(s)[1..] == Decoded(rest);
    }
  }

  /** A valid string comes back from its code points exactly when all of them survive. */
  lemma {:induction false} BytesComeBack(s: seq<byte>)
    requires IsValid(s)
    ensures AllEncoded(Decoded(s)) == s <==> forall i | 0 <= i < |Decoded(s)| :: Survives(Decoded(s)[i])
    decreases |s|
  {
    hide SplitFirst, Encoded, Survives;
    if s == [] {
      NothingDecoded();
    } else if forall i | 0 <= i < |Decoded(s)| :: Survives(Decoded(s)[i]) {
      var Split(c, rest) := SplitFirst(s).value;
      SplitFirstIsShorter(s);
      assert Decoded(s) == [c] + Decoded(rest);
      assert Decoded(s)[0] == c && Decoded(s)[1..] == Decoded(rest);
      assert forall i | 0 <= i < |Decoded(rest)| :: Decoded(rest)[i] == Decoded(s)[i + 1];
      DecodedIsEncoded(s);
      BytesComeBack(rest);
    } else {
      DecodedLengths(s);
    }
  }

  // Backwards.

  function Reverse(codepoints: seq<char32>): seq<char32> {
    if codepoints == [] then [] else Reverse(codepoints[1..]) + [codepoints[0]]
  }

  /** The code points from the back up to the first byte that does not belong to one. */
  function DecodedBackwards(s: seq<byte>): seq<char32>
    decreases |s|
  {
    if SplitLast(s).None? then [] else [SplitLast(s).value.codepoint] + DecodedBackwards(SplitLast(s).value.rest)
  }

  /** One code point's bytes: all but the first are trailing bytes. */
  lemma PieceOfFirst(s: seq<byte>)
    requires SplitFirst(s).Some?
    ensures
      var rest := SplitFirst(s).value.rest;
      var n := |s| - |rest|;
      && n >= 1
      && s == s[..n] + rest
      && !IsTrailing(s[0])
      && AreTrailing(s[1..n])
      && SplitFirst(s[..n]) == Some(Split(SplitFirst(s).value.codepoint, []))
  {
    hide Bits;
    LeadHasLength(s[0]);
    var n := LeadOf(s[0]).value.length;
    assert |s| - |SplitFirst(s).value.rest| == n;
    assert s[..n][1..n] == s[1..n];
    assert s[..n][n..] == [];
  }

  lemma {:induction false} TrailingAtEndOfRest(front: seq<byte>, rest: seq<byte>)
    requires TrailingAtEnd(rest) < |rest|
    ensures TrailingAtEnd(front + rest) == TrailingAtEnd(rest)
  {
    if IsTrailing(rest[|rest| - 1]) {
      assert (front + rest)[..|front + rest| - 1] == front + rest[..|rest| - 1];
      TrailingAtEndOfRest(front, rest[..|rest| - 1]);
    }
  }

  lemma SplitLastOfRest(front: seq<byte>, rest: seq<byte>)
    requires SplitLast(rest).Some?
    ensures SplitLast(front + rest) == Some(Split(SplitLast(rest).value.codepoint, front + SplitLast(rest).value.rest))
  {
    hide SplitFirst;
    TrailingAtEndOfRest(front, rest);
    var k := |rest| - TrailingAtEnd(rest) - 1;
    assert (front + rest)[|front| + k..] == rest[k..];
    assert (front + rest)[..|front| + k] == front + rest[..k];
  }

  lemma SplitLastOfPiece(s: seq<byte>)
    requires SplitFirst(s).Some? && SplitFirst(s).value.rest == []
    ensures SplitLast(s) == Some(Split(SplitFirst(s).value.codepoint, []))
  {
    hide SplitFirst;
    PieceOfFirst(s);
    assert s[1..|s|] == s[1..];
    TrailingAtEndIs(s, |s| - 1);
    assert s[0..] == s;
    assert s[..0] == [];
  }

  lemma SplitFirstWithMore(piece: seq<byte>, more: seq<byte>)
    requires SplitFirst(piece).Some? && SplitFirst(piece).value.rest == []
    ensures SplitFirst(piece + more) == Some(Split(SplitFirst(piece).value.codepoint, more))
  {
    hide Bits, LeadOf;
    LeadHasLength(piece[0]);
    assert (piece + more)[1..|piece|] == piece[1..|piece|];
    assert (piece + more)[|piece|..] == more;
  }

  /** The last code point of a valid string is the one the backward split finds, and what is left is valid. */
  lemma {:induction false} LastOfValid(s: seq<byte>)
    requires IsValid(s) && s != []
    ensures
      SplitLast(s).Some? &&
      var Split(c, rest) := SplitLast(s).value;
      |rest| < |s| && IsValid(rest) && Decoded(s) == Decoded(rest) + [c]
    decreases |s|
  {
    hide SplitFirst, SplitLast, AreTrailing;
    var Split(first, rest) := SplitFirst(s).value;
    SplitFirstIsShorter(s);
    PieceOfFirst(s);
    var piece := s[..|s| - |rest|];
    assert Decoded(s) == [first] + Decoded(rest);
    if rest == [] {
      SplitLastOfPiece(s);
      NothingDecoded();
      assert [first] + [] == [] + [first];
    } else {
      LastOfValid(rest);
      SplitLastOfRest(piece, rest);
      var Split(c, middle) := SplitLast(rest).value;
      SplitFirstWithMore(piece, middle);
      assert Decoded(piece + middle) == [first] + Decoded(middle);
    }
  }

  lemma {:induction false} ReverseOfMore(codepoints: seq<char32>, last: char32)
    ensures Reverse(codepoints + [last]) == [last] + Reverse(codepoints)
  {
    if codepoints == [] {
      assert codepoints + [last] == [last];
      assert [last][1..] == [];
    } else {
      assert (codepoints + [last])[1..] == codepoints[1..] + [last];
      ReverseOfMore(codepoints[1..], last);
    }
  }

  /** From the back, a valid string has the same code points in reverse. */
  lemma {:induction false} BackwardsIsReverse(s: seq<byte>)
    requires IsValid(s)
    ensures DecodedBackwards(s) == Reverse(Decoded(s))
    decreases |s|
  {
    hide SplitFirst, SplitLast;
    if s == [] {
      NothingDecoded();
      NothingBackwards();
    } else {
      LastOfValid(s);
      var Split(c, rest) := SplitLast(s).value;
      BackwardsIsReverse(rest);
      ReverseOfMore(Decoded(rest), c);
    }
  }

  lemma NothingBackwards()
    ensures DecodedBackwards([]) == []
  {}

  // Iterators.

  class ConstChar32Iterator {
    var utf8String: seq<byte>
    var current: char32
    var done: bool

    /** What is still to come, the current code point first. */
    ghost function Remaining(): seq<char32>
      reads this
    {
      if done then [] else [current] + Decoded(utf8String)
    }

    constructor (s: seq<byte>)
      ensures Remaining() == Decoded(s)
    {
      utf8String, current, done := s, 0, false;
      new;
      Next();
    }

    method Get() returns (codepoint: char32)
      requires !done
      ensures Remaining() == [codepoint] + Remaining()[1..]
    {
      assert Remaining()[1..] == Decoded(utf8String);
      return current;
    }

    method Next()
      modifies this
      ensures Remaining() == if old(done) then [] else old(Decoded(utf8String))
      ensures Remaining() == if old(Remaining()) == [] then [] else old(Remaining())[1..]
    {
      hide SplitFirst;
      if !done {
        var ok;
        ok, current, utf8String := SplitFirstChar32(utf8String);
        done := !ok;
      }
    }

    predicate Done()
      reads this
      ensures Done() <==> Remaining() == []
    {
      done
    }
  }

  class ConstChar32ReverseIterator {
    var utf8String: seq<byte>
    var current: char32
    var done: bool

    ghost function Remaining(): seq<char32>
      reads this
    {
      if done then [] else [current] + DecodedBackwards(utf8String)
    }

    constructor (s: seq<byte>)
      ensures Remaining() == DecodedBackwards(s)
      ensures IsValid(s) ==> Remaining() == Reverse(Decoded(s))
    {
      utf8String, current, done := s, 0, false;
      new;
      Next();
      if IsValid(s) {
        BackwardsIsReverse(s);
      }
    }

    method Get() returns (codepoint: char32)
      requires !done
      ensures Remaining() == [codepoint] + Remaining()[1..]
    {
      assert Remaining()[1..] == DecodedBackwards(utf8String);
      return current;
    }

    method Next()
      modifies this
      ensures Remaining() == if old(done) then [] else old(DecodedBackwards(utf8String))
      ensures Remaining() == if old(Remaining()) == [] then [] else old(Remaining())[1..]
    {
      hide SplitLast;
      if !done {
        var ok;
        ok, utf8String, current := SplitLastChar32(utf8String);
        done := !ok;
      }
    }

    predicate Done()
      reads this
      ensures Done() <==> Remaining() == []
    {
      done
    }
  }
}

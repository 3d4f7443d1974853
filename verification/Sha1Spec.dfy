/** SHA-1 as FIPS 180-4 defines it, on byte sequences. */
module Sha1Spec {

  type byte = bv8

  const BLOCK_BYTES: nat := 64

  /** Section 1: messages are shorter than 2^64 bits. */
  const MESSAGE_LIMIT: nat := 0x2000_0000_0000_0000

  type Message = m: seq<byte> | |m| < MESSAGE_LIMIT

  // Big-endian words.

  function Word(b: seq<byte>): bv32
    requires |b| == 4
  {
    ((b[0] as bv32) << 24) | ((b[1] as bv32) << 16) | ((b[2] as bv32) << 8) | (b[3] as bv32)
  }

  function WordBytes(w: bv32): (b: seq<byte>)
    ensures |b| == 4
  {
    [(w >> 24) as byte, ((w >> 16) & 0xff) as byte, ((w >> 8) & 0xff) as byte, (w & 0xff) as byte]
  }

  lemma WordRoundTrip(w: bv32)
    ensures Word(WordBytes(w)) == w
  {}

  function LongBytes(w: bv64): (b: seq<byte>)
    ensures |b| == 8
  {
    WordBytes((w >> 32) as bv32) + WordBytes((w & 0xffff_ffff) as bv32)
  }

  lemma LongRoundTrip(w: bv64)
    ensures var b := LongBytes(w);
            ((Word(b[..4]) as bv64) << 32) | (Word(b[4..]) as bv64) == w
  {
    var high, low := (w >> 32) as bv32, (w & 0xffff_ffff) as bv32;
    assert LongBytes(w)[..4] == WordBytes(high) && LongBytes(w)[4..] == WordBytes(low);
    WordRoundTrip(high);
    WordRoundTrip(low);
  }

  // Padding, section 5.1.1.

  function Zeros(n: nat): (z: seq<byte>)
    ensures |z| == n
  {
    seq(n, _ => 0)
  }

  /** The number of zero bytes after the marker byte. */
  function ZeroBytes(size: nat): nat { (55 - size) % 64 }

  function Padded(m: Message): seq<byte> {
    m + [0x80] + Zeros(ZeroBytes(|m|)) + LongBytes((8 * |m|) as bv64)
  }

  /** In bits: the zeros after the marker bit are the least solution `k` of l + 1 + k = 448 (mod 512). */
  lemma PaddingIsLeast(size: nat, k: nat)
    ensures var zeroBits := 7 + 8 * ZeroBytes(size);
            && (8 * size + 1 + zeroBits) % 512 == 448
            && ((8 * size + 1 + k) % 512 == 448 ==> zeroBits <= k)
  {
    var z := ZeroBytes(size);
    var blocks := (size + 1 + z) / 64;
    assert (size + 1 + z) % 64 == 56;
    assert 8 * size + 1 + (7 + 8 * z) == 512 * blocks + 448;
    if (8 * size + 1 + k) % 512 == 448 {
      var other := (8 * size + 1 + k) / 512;
      assert 512 * (blocks - other) == 7 + 8 * z - k;
    }
  }

  // Functions and constants, sections 4.1.1 and 4.2.1.

  function Rotl(x: bv32, n: bv6): bv32
    requires 0 < n < 32
  {
    (x << n) | (x >> (32 - n))
  }

  function Ch(x: bv32, y: bv32, z: bv32): bv32 { (x & y) ^ (!x & z) }

  function Parity(x: bv32, y: bv32, z: bv32): bv32 { x ^ y ^ z }

  function Maj(x: bv32, y: bv32, z: bv32): bv32 { (x & y) ^ (x & z) ^ (y & z) }

  function F(t: nat, x: bv32, y: bv32, z: bv32): bv32
    requires t < 80
  {
    if t <= 19 then Ch(x, y, z) else if t <= 39 then Parity(x, y, z) else if t <= 59 then Maj(x, y, z) else Parity(x, y, z)
  }

  function K(t: nat): bv32
    requires t < 80
  {
    if t <= 19 then 0x5a827999 else if t <= 39 then 0x6ed9eba1 else if t <= 59 then 0x8f1bbcdc else 0xca62c1d6
  }

  /** Both choices of the standard's earlier editions are the same functions. */
  lemma EarlierForms(x: bv32, y: bv32, z: bv32)
    ensures Ch(x, y, z) == (x & y) | (!x & z)
    ensures Maj(x, y, z) == (x & y) | (x & z) | (y & z)
  {}

  // Hash computation, section 6.1.2.

  datatype Hash = Hash(a: bv32, b: bv32, c: bv32, d: bv32, e: bv32)

  const INITIAL := Hash(0x67452301, 0xefcdab89, 0x98badcfe, 0x10325476, 0xc3d2e1f0)

  function Xor4(a: bv32, b: bv32, c: bv32, d: bv32): bv32 { a ^ b ^ c ^ d }

  /** The message schedule. */
  function W(block: seq<byte>, t: nat): bv32
    requires |block| == BLOCK_BYTES && t < 80
  {
    if t < 16 then Word(block[4 * t..4 * t + 4])
    else Rotl(Xor4(W(block, t - 3), W(block, t - 8), W(block, t - 14), W(block, t - 16)), 1)
  }

  function Plus(x: bv32, y: bv32): bv32 { x + y }

  function Temp(v: Hash, t: nat, w: bv32): bv32
    requires t < 80
  {
    Plus(Plus(Plus(Plus(Rotl(v.a, 5), F(t, v.b, v.c, v.d)), v.e), K(t)), w)
  }

  /** The working variables after `t` of the 80 steps. */
  function Steps(block: seq<byte>, h: Hash, t: nat): Hash
    requires |block| == BLOCK_BYTES && t <= 80
  {
    if t == 0 then h else
      var v := Steps(block, h, t - 1);
      Hash(Temp(v, t - 1, W(block, t - 1)), v.a, Rotl(v.b, 30), v.c, v.d)
  }

  /** The constants are the integer parts of 2^30 times the square roots of 2, 3, 5 and 10. */
  lemma ConstantsAreRoots(t: nat)
    requires t < 80
    ensures
      var n := if t < 20 then 2 else if t < 40 then 3 else if t < 60 then 5 else 10;
      var k := K(t) as nat;
      k * k <= n * 0x1000_0000_0000_0000 < (k + 1) * (k + 1)
  {
    assert 0x5a827999 * 0x5a827999 <= 2 * 0x1000_0000_0000_0000 < 0x5a82799a * 0x5a82799a;
    assert 0x6ed9eba1 * 0x6ed9eba1 <= 3 * 0x1000_0000_0000_0000 < 0x6ed9eba2 * 0x6ed9eba2;
    assert 0x8f1bbcdc * 0x8f1bbcdc <= 5 * 0x1000_0000_0000_0000 < 0x8f1bbcdd * 0x8f1bbcdd;
    assert 0xca62c1d6 * 0xca62c1d6 <= 10 * 0x1000_0000_0000_0000 < 0xca62c1d7 * 0xca62c1d7;
  }

  lemma Rotated(x: bv32)
    ensures Rotl(x, 5) == (x << 5) | (x >> 27)
    ensures Rotl(x, 30) == (x << 30) | (x >> 2)
  {}

  /** In each step the words move on by one, the second one rotated by 30, and the first one is new. */
  lemma NextStep(block: seq<byte>, h: Hash, t: nat)
    requires |block| == BLOCK_BYTES && t < 80
    ensures
      var v, next := Steps(block, h, t), Steps(block, h, t + 1);
      && next.a == Plus(Plus(Plus(Plus(Rotl(v.a, 5), F(t, v.b, v.c, v.d)), v.e), K(t)), W(block, t))
      && next.b == v.a
      && next.c == Rotl(v.b, 30)
      && next.d == v.c
      && next.e == v.d
  {
    hide W, F, K, Rotl, Plus;
  }

  // The functions and constants by ranges of steps.

  lemma FirstChoice(t: nat, x: bv32, y: bv32, z: bv32)
    requires t < 20
    ensures F(t, x, y, z) == (x & y) ^ (!x & z) && K(t) == 0x5a827999
  {}

  lemma SecondChoice(t: nat, x: bv32, y: bv32, z: bv32)
    requires 20 <= t < 40
    ensures F(t, x, y, z) == x ^ y ^ z && K(t) == 0x6ed9eba1
  {}

  lemma ThirdChoice(t: nat, x: bv32, y: bv32, z: bv32)
    requires 40 <= t < 60
    ensures F(t, x, y, z) == (x & y) ^ (x & z) ^ (y & z) && K(t) == 0x8f1bbcdc
  {}

  lemma FourthChoice(t: nat, x: bv32, y: bv32, z: bv32)
    requires 60 <= t < 80
    ensures F(t, x, y, z) == x ^ y ^ z && K(t) == 0xca62c1d6
  {}

  function Compress(h: Hash, block: seq<byte>): Hash
    requires |block| == BLOCK_BYTES
  {
    var v := Steps(block, h, 80);
    Hash(Plus(h.a, v.a), Plus(h.b, v.b), Plus(h.c, v.c), Plus(h.d, v.d), Plus(h.e, v.e))
  }

  function HashBlocks(h: Hash, data: seq<byte>): Hash
    requires |data| % BLOCK_BYTES == 0
    decreases |data|
  {
    if |data| == 0 then h else HashBlocks(Compress(h, data[..BLOCK_BYTES]), data[BLOCK_BYTES..])
  }

  /** One block is compressed, and longer data is hashed on from where its front left off. */
  lemma {:induction false} HashedInTurn(h: Hash, a: seq<byte>, b: seq<byte>)
    requires |a| % 64 == 0 && |b| % 64 == 0
    ensures HashBlocks(h, a + b) == HashBlocks(HashBlocks(h, a), b)
    ensures |a| == 64 ==> HashBlocks(h, a) == Compress(h, a)
    decreases |a|
  {
    hide Compress;
    if a == [] {
      assert a + b == b;
    } else {
      assert |a| >= 64;
      assert (a + b)[..64] == a[..64] && (a + b)[64..] == a[64..] + b;
      if |a| == 64 {
        assert a[..64] == a && a[64..] == [];
      }
      HashedInTurn(Compress(h, a[..64]), a[64..], b);
    }
  }

  function WordsBytes(ws: seq<bv32>): (b: seq<byte>)
    ensures |b| == 4 * |ws|
  {
    if ws == [] then [] else WordsBytes(ws[..|ws| - 1]) + WordBytes(ws[|ws| - 1])
  }

  function HashBytes(h: Hash): (b: seq<byte>)
    ensures |b| == 20
  {
    WordsBytes([h.a, h.b, h.c, h.d, h.e])
  }

  lemma OneMoreWord(ws: seq<bv32>, w: bv32)
    ensures WordsBytes(ws + [w]) == WordsBytes(ws) + WordBytes(w)
  {
    assert (ws + [w])[..|ws|] == ws;
  }

  lemma NoWords()
    ensures WordsBytes([]) == []
  {}

  lemma FiveWords(h: Hash)
    ensures HashBytes(h) == WordBytes(h.a) + WordBytes(h.b) + WordBytes(h.c) + WordBytes(h.d) + WordBytes(h.e)
  {
    hide WordBytes, WordsBytes;
    NoWords();
    OneMoreWord([], h.a);
    OneMoreWord([h.a], h.b);
    OneMoreWord([h.a, h.b], h.c);
    OneMoreWord([h.a, h.b, h.c], h.d);
    OneMoreWord([h.a, h.b, h.c, h.d], h.e);
    assert [] + [h.a] == [h.a];
    assert [] + WordBytes(h.a) == WordBytes(h.a);
    assert [h.a] + [h.b] == [h.a, h.b] && [h.a, h.b] + [h.c] == [h.a, h.b, h.c];
    assert [h.a, h.b, h.c] + [h.d] == [h.a, h.b, h.c, h.d];
    assert [h.a, h.b, h.c, h.d] + [h.e] == [h.a, h.b, h.c, h.d, h.e];
  }

  lemma ZeroBytesFillUp(size: nat)
    ensures (size + 9 + ZeroBytes(size)) % BLOCK_BYTES == 0
  {
    var blocks := (size + 9 + ZeroBytes(size)) / 64;
    assert size + 9 + ZeroBytes(size) == 64 * blocks;
  }

  lemma PaddedIsWholeBlocks(m: Message)
    ensures |Padded(m)| % BLOCK_BYTES == 0
  {
    hide LongBytes, ZeroBytes;
    ZeroBytesFillUp(|m|);
  }

  function Digest(m: Message): (b: seq<byte>)
    ensures |b| == 20
  {
    PaddedIsWholeBlocks(m);
    HashBytes(HashBlocks(INITIAL, Padded(m)))
  }
}

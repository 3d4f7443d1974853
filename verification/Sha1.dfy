/** The digest of src/base/unverified_sha1.cc, which makes the padding of each block as it goes. */
module Sha1 {
  import opened Sha1Spec

  // The four stretches of a padded message.

  lemma TextStretch(m: Message, from: nat, n: nat)
    requires from + n <= |m|
    ensures Padded(m)[from..from + n] == m[from..from + n]
  {}

  lemma MarkerStretch(m: Message, from: nat)
    requires from == |m|
    ensures Padded(m)[from..from + 1] == [0x80]
  {}

  lemma ZeroStretch(m: Message, from: nat, n: nat)
    requires |m| < from && from + n <= |Padded(m)| - 8
    ensures Padded(m)[from..from + n] == Zeros(n)
  {
    hide LongBytes;
  }

  lemma LengthStretch(m: Message, from: nat)
    requires from == |Padded(m)| - 8
    ensures Padded(m)[from..from + 8] == LongBytes((8 * |m|) as bv64)
  {
    hide LongBytes;
  }

  /** Writes the next stretch of `p` after the ones already written. */
  method Put(dest: array<byte>, at: nat, s: seq<byte>, ghost p: seq<byte>, ghost base: nat)
    requires at + |s| <= dest.Length && base + at + |s| <= |p|
    requires dest[..at] == p[base..base + at] && p[base + at..base + at + |s|] == s
    modifies dest
    ensures dest[..at + |s|] == p[base..base + at + |s|]
  {
    for i := 0 to |s|
      invariant dest[..at + i] == p[base..base + at + i]
    {
      dest[at + i] := s[i];
      assert dest[..at + i + 1] == dest[..at + i] + [s[i]];
    }
  }

  class PaddedMessageIterator {
    const source: Message
    const numTotalMessage: nat
    var messageIndex: nat

    ghost predicate Valid()
      reads this
    {
      numTotalMessage == GetTotalMessageCount(|source|)
    }

    constructor (source: Message)
      ensures Valid() && this.source == source && messageIndex == 0
    {
      this.source := source;
      numTotalMessage := GetTotalMessageCount(|source|);
      messageIndex := 0;
    }

    static function GetTotalMessageCount(originalMessageSize: nat): nat {
      (originalMessageSize + 1 + 8 + BLOCK_BYTES - 1) / BLOCK_BYTES
    }

    /** The blocks make up the padded message exactly. */
    static lemma TotalMessageCount(m: Message)
      ensures |Padded(m)| == BLOCK_BYTES * GetTotalMessageCount(|m|)
    {
      hide LongBytes;
      var count := GetTotalMessageCount(|m|);
      var zeros := BLOCK_BYTES * count - |m| - 9;
      assert 0 <= zeros < 64;
      assert (zeros - (55 - |m|)) % 64 == 0;
      assert zeros == ZeroBytes(|m|);
    }

    /** A block is the last one just when the message, the marker and the length end within it. */
    static lemma LastBlock(m: Message, i: nat)
      requires i < GetTotalMessageCount(|m|)
      ensures |m| + 9 <= BLOCK_BYTES * i + BLOCK_BYTES ==> |Padded(m)| == BLOCK_BYTES * i + BLOCK_BYTES
      ensures |m| + 9 > BLOCK_BYTES * i + BLOCK_BYTES ==> |Padded(m)| >= BLOCK_BYTES * i + 2 * BLOCK_BYTES
    {
      hide Padded;
      TotalMessageCount(m);
    }

    /** A block of the padded message. */
    static function Block(m: Message, i: nat): (b: seq<byte>)
      requires i < GetTotalMessageCount(|m|)
      ensures |b| == BLOCK_BYTES
    {
      hide Padded;
      TotalMessageCount(m);
      Padded(m)[BLOCK_BYTES * i..BLOCK_BYTES * i + BLOCK_BYTES]
    }

    predicate HasMessage()
      reads this
    {
      messageIndex < numTotalMessage
    }

    /** Fills in one block of the padded message. */
    method FillNextMessage(dest: array<byte>)
      requires Valid() && HasMessage() && dest.Length == BLOCK_BYTES
      modifies dest
      ensures dest[..] == Block(source, messageIndex)
    {
      hide LongBytes, Padded, GetTotalMessageCount, Zeros;
      TotalMessageCount(source);
      LastBlock(source, messageIndex);
      ghost var p := Padded(source);
      var baseIndex := messageIndex * BLOCK_BYTES;
      var cursor := 0;
      if baseIndex < |source| {
        var rest := |source| - baseIndex;
        if rest >= BLOCK_BYTES {
          TextStretch(source, baseIndex, BLOCK_BYTES);
          Put(dest, 0, source[baseIndex..baseIndex + BLOCK_BYTES], p, baseIndex);
          assert dest[..] == dest[..BLOCK_BYTES];
          return;
        }
        TextStretch(source, baseIndex, rest);
        Put(dest, 0, source[baseIndex..], p, baseIndex);
        cursor := rest;
      }
      if baseIndex + cursor == |source| {
        MarkerStretch(source, baseIndex + cursor);
        Put(dest, cursor, [0x80], p, baseIndex);
        cursor := cursor + 1;
      }
      FillTail(dest, baseIndex, cursor);
    }

    /** Fills in a block from the first byte after the text and the marker. */
    method FillTail(dest: array<byte>, baseIndex: nat, cursor: nat)
      requires Valid() && HasMessage() && dest.Length == BLOCK_BYTES && baseIndex == BLOCK_BYTES * messageIndex
      requires cursor <= BLOCK_BYTES && |source| < baseIndex + cursor && baseIndex + cursor <= |Padded(source)|
      requires cursor == 0 || |source| + 1 == baseIndex + cursor
      requires dest[..cursor] == Padded(source)[baseIndex..baseIndex + cursor]
      modifies dest
      ensures dest[..] == Block(source, messageIndex)
    {
      hide LongBytes, Padded, GetTotalMessageCount, Zeros;
      TotalMessageCount(source);
      LastBlock(source, messageIndex);
      ghost var p := Padded(source);
      assert Block(source, messageIndex) == p[baseIndex..baseIndex + BLOCK_BYTES];
      var zeroFillLimit := BLOCK_BYTES - 8;
      if cursor > zeroFillLimit {
        ZeroStretch(source, baseIndex + cursor, BLOCK_BYTES - cursor);
        Put(dest, cursor, Zeros(BLOCK_BYTES - cursor), p, baseIndex);
        assert dest[..] == dest[..BLOCK_BYTES];
        return;
      }
      ZeroStretch(source, baseIndex + cursor, zeroFillLimit - cursor);
      Put(dest, cursor, Zeros(zeroFillLimit - cursor), p, baseIndex);
      LengthStretch(source, baseIndex + zeroFillLimit);
      Put(dest, zeroFillLimit, LongBytes(((8 * |source|) % 0x1_0000_0000_0000_0000) as bv64), p, baseIndex);
      assert dest[..] == dest[..BLOCK_BYTES];
    }

    method MoveNext()
      modifies this
      ensures messageIndex == old(messageIndex) + 1
    {
      messageIndex := messageIndex + 1;
    }
  }

  function HashOf(H: seq<bv32>): Hash
    requires |H| == 5
  {
    Hash(H[0], H[1], H[2], H[3], H[4])
  }

  /** The message schedule of one block. */
  method FillSchedule(message: array<byte>, w: array<bv32>)
    requires message.Length == BLOCK_BYTES && w.Length == 80
    modifies w
    ensures forall t | 0 <= t < 80 :: w[t] == W(message[..], t)
  {
    hide Rotl, Word, W, Xor4;
    ghost var block := message[..];
    for i := 0 to 16
      invariant forall t | 0 <= t < i :: w[t] == W(block, t)
    {
      var baseIndex := i * 4;
      ScheduleStart(block, i);
      assert message[baseIndex..baseIndex + 4] == block[4 * i..4 * i + 4];
      w[i] := Word(message[baseIndex..baseIndex + 4]);
    }
    for t := 16 to 80
      invariant forall u | 0 <= u < t :: w[u] == W(block, u)
    {
      ScheduleNext(block, t);
      w[t] := Rotl(Xor4(w[t - 3], w[t - 8], w[t - 14], w[t - 16]), 1);
    }
  }

  lemma ScheduleStart(block: seq<byte>, t: nat)
    requires |block| == BLOCK_BYTES && t < 16
    ensures W(block, t) == Word(block[4 * t..4 * t + 4])
  {}

  lemma ScheduleNext(block: seq<byte>, t: nat)
    requires |block| == BLOCK_BYTES && 16 <= t < 80
    ensures W(block, t) == Rotl(Xor4(W(block, t - 3), W(block, t - 8), W(block, t - 14), W(block, t - 16)), 1)
  {
    hide Rotl, Xor4;
  }

  /** Adds one block to the hash value. */
  method ProcessBlock(H: array<bv32>, message: array<byte>)
    requires H.Length == 5 && message.Length == BLOCK_BYTES
    modifies H
    ensures HashOf(H[..]) == Compress(old(HashOf(H[..])), message[..])
  {
    hide Rotl, Temp, W, Plus;
    var w := new bv32[80];
    FillSchedule(message, w);
    ghost var block, h := message[..], HashOf(H[..]);
    var a, b, c, d, e := H[0], H[1], H[2], H[3], H[4];
    for t := 0 to 80
      invariant Hash(a, b, c, d, e) == Steps(block, h, t)
    {
      var temp := Temp(Hash(a, b, c, d, e), t, w[t]);
      e := d;
      d := c;
      c := Rotl(b, 30);
      b := a;
      a := temp;
    }
    H[0] := Plus(H[0], a);
    H[1] := Plus(H[1], b);
    H[2] := Plus(H[2], c);
    H[3] := Plus(H[3], d);
    H[4] := Plus(H[4], e);
  }

  method AsByteStream(H: array<bv32>) returns (str: seq<byte>)
    requires H.Length == 5
    ensures str == HashBytes(HashOf(H[..]))
  {
    hide WordBytes;
    str := [];
    for i := 0 to 5
      invariant str == WordsBytes(H[..i])
    {
      str := str + WordBytes(H[i]);
      assert H[..i + 1][..i] == H[..i];
    }
    ghost var h := HashOf(H[..]);
    assert H[..5] == [h.a, h.b, h.c, h.d, h.e];
  }

  lemma NextBlock(h: Hash, after: Hash, p: seq<byte>, block: seq<byte>, rest: seq<byte>)
    requires |block| == BLOCK_BYTES && |rest| % BLOCK_BYTES == 0 && p == block + rest && after == Compress(h, block)
    ensures |p| % BLOCK_BYTES == 0 && HashBlocks(h, p) == HashBlocks(after, rest)
  {
    hide Compress;
    assert p[..BLOCK_BYTES] == block && p[BLOCK_BYTES..] == rest;
  }

  method MakeDigestImpl(source: Message) returns (digest: seq<byte>)
    ensures digest == Digest(source)
  {
    hide Padded, Compress, WordBytes;
    var H := new bv32[5] [0x67452301, 0xefcdab89, 0x98badcfe, 0x10325476, 0xc3d2e1f0];
    var it := new PaddedMessageIterator(source);
    ghost var p := Padded(source);
    PaddedMessageIterator.TotalMessageCount(source);
    while it.HasMessage()
      invariant it.Valid() && it.source == source && it.messageIndex <= it.numTotalMessage
      invariant HashBlocks(HashOf(H[..]), p[BLOCK_BYTES * it.messageIndex..]) == HashBlocks(INITIAL, p)
      decreases it.numTotalMessage - it.messageIndex
    {
      var message := new byte[64];
      it.FillNextMessage(message);
      ghost var h := HashOf(H[..]);
      ProcessBlock(H, message);
      ghost var at := BLOCK_BYTES * it.messageIndex;
      NextBlock(h, HashOf(H[..]), p[at..], message[..], p[at + BLOCK_BYTES..]);
      it.MoveNext();
    }
    digest := AsByteStream(H);
  }
}

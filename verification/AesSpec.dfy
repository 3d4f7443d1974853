/** AES-256 and cipher block chaining as functions on byte sequences: sections 5.1 to 5.3 of FIPS 197 and
    section 6.2 of NIST SP 800-38A. The methods of module Aes256 are proved against these functions. */
module AesSpec {
  import opened Gf256
  import opened AesTables

  const BLOCK_BYTES: nat := 16
  const KEY_BYTES: nat := 32
  const KEY_SCHEDULE_BYTES: nat := 240
  const ROUNDS: nat := 14

  /** The state: byte r + 4c is the one in row r and column c. */
  type Block = s: seq<byte> | |s| == 16 witness seq(16, _ => 0)

  type Schedule = w: seq<byte> | |w| == 240 witness seq(240, _ => 0)

  type Key = k: seq<byte> | |k| == 32 witness seq(32, _ => 0)

  // The round transformations.

  function AddRoundKey(s: Block, k: Block): Block {
    seq(16, i requires 0 <= i < 16 => Xor(s[i], k[i]))
  }

  function SubBytes(s: Block): Block {
    seq(16, i requires 0 <= i < 16 => SBox(s[i]))
  }

  function InvSubBytes(s: Block): Block {
    seq(16, i requires 0 <= i < 16 => InvSBox(s[i]))
  }

  /** Row r moves left by r columns; see ShiftRowsRotates. */
  function ShiftRows(s: Block): Block {
    [s[0], s[5], s[10], s[15], s[4], s[9], s[14], s[3], s[8], s[13], s[2], s[7], s[12], s[1], s[6], s[11]]
  }

  /** Row r moves right by r columns. */
  function InvShiftRows(s: Block): Block {
    [s[0], s[13], s[10], s[7], s[4], s[1], s[14], s[11], s[8], s[5], s[2], s[15], s[12], s[9], s[6], s[3]]
  }

  type Word = s: seq<byte> | |s| == 4 witness [0, 0, 0, 0]

  /** A column times the circulant matrix whose first row is `k`. */
  function MultipliedColumn(k: Factors, s: Word): Word {
    [Row(k, s[0], s[1], s[2], s[3]), Row(k, s[1], s[2], s[3], s[0]),
     Row(k, s[2], s[3], s[0], s[1]), Row(k, s[3], s[0], s[1], s[2])]
  }

  function MultiplyColumns(k: Factors, s: Block): Block {
    hide MultipliedColumn;
    MultipliedColumn(k, s[0..4]) + MultipliedColumn(k, s[4..8]) +
    MultipliedColumn(k, s[8..12]) + MultipliedColumn(k, s[12..16])
  }

  function MixColumns(s: Block): Block { MultiplyColumns(MIX, s) }

  function InvMixColumns(s: Block): Block { MultiplyColumns(INV_MIX, s) }

  // Each transformation undoes its inverse.

  lemma XorCancels(a: byte, b: byte)
    ensures Xor(Xor(a, b), b) == a
  {}

  lemma AddRoundKeyInvolutive(s: Block, k: Block)
    ensures AddRoundKey(AddRoundKey(s, k), k) == s
  {
    hide Xor;
    forall i | 0 <= i < 16
      ensures AddRoundKey(AddRoundKey(s, k), k)[i] == s[i]
    {
      XorCancels(s[i], k[i]);
    }
  }

  lemma SubBytesInvert(s: Block)
    ensures InvSubBytes(SubBytes(s)) == s
    ensures SubBytes(InvSubBytes(s)) == s
  {
    hide SBox, InvSBox;
    forall i | 0 <= i < 16
      ensures InvSubBytes(SubBytes(s))[i] == s[i] == SubBytes(InvSubBytes(s))[i]
    {
      SBoxThenInverse(s[i]);
      InverseThenSBox(s[i]);
    }
  }

  /** ShiftRows as section 5.1.2 puts it, by row and column. */
  lemma ShiftRowsRotates(s: Block, r: nat, c: nat)
    requires r < 4 && c < 4
    ensures ShiftRows(s)[r + 4 * c] == s[r + 4 * ((c + r) % 4)]
  {
    assert c == 0 || c == 1 || c == 2 || c == 3;
  }

  lemma ShiftRowsInvert(s: Block)
    ensures InvShiftRows(ShiftRows(s)) == s
    ensures ShiftRows(InvShiftRows(s)) == s
  {}

  lemma ColumnInverts(s: Word)
    ensures MultipliedColumn(INV_MIX, MultipliedColumn(MIX, s)) == s
    ensures MultipliedColumn(MIX, MultipliedColumn(INV_MIX, s)) == s
  {
    hide Row;
    ColumnsInvert(s[0], s[1], s[2], s[3]);
    ColumnsInvert(s[1], s[2], s[3], s[0]);
    ColumnsInvert(s[2], s[3], s[0], s[1]);
    ColumnsInvert(s[3], s[0], s[1], s[2]);
  }

  lemma ColumnsOf(k: Factors, s: Block)
    ensures var t := MultiplyColumns(k, s);
            && t[0..4] == MultipliedColumn(k, s[0..4]) && t[4..8] == MultipliedColumn(k, s[4..8])
            && t[8..12] == MultipliedColumn(k, s[8..12]) && t[12..16] == MultipliedColumn(k, s[12..16])
  {
    hide MultipliedColumn;
  }

  lemma MixColumnsInvert(s: Block)
    ensures InvMixColumns(MixColumns(s)) == s
    ensures MixColumns(InvMixColumns(s)) == s
  {
    hide MultipliedColumn;
    ColumnsOf(MIX, s);
    ColumnsOf(INV_MIX, s);
    ColumnInverts(s[0..4]);
    ColumnInverts(s[4..8]);
    ColumnInverts(s[8..12]);
    ColumnInverts(s[12..16]);
    assert s == s[0..4] + s[4..8] + s[8..12] + s[12..16];
  }

  // The cipher and its inverse.

  function RoundKey(w: Schedule, round: nat): Block
    requires round <= ROUNDS
  {
    w[BLOCK_BYTES * round..BLOCK_BYTES * round + BLOCK_BYTES]
  }

  function Round(s: Block, key: Block): Block {
    AddRoundKey(MixColumns(ShiftRows(SubBytes(s))), key)
  }

  function InvRound(s: Block, key: Block): Block {
    InvSubBytes(InvShiftRows(InvMixColumns(AddRoundKey(s, key))))
  }

  /** The state after the initial key addition and `n` full rounds. */
  function Rounds(w: Schedule, s: Block, n: nat): Block
    requires n < ROUNDS
  {
    if n == 0 then AddRoundKey(s, RoundKey(w, 0)) else Round(Rounds(w, s, n - 1), RoundKey(w, n))
  }

  /** The state before `n` full rounds and the initial key addition. */
  function InvRounds(w: Schedule, s: Block, n: nat): Block
    requires n < ROUNDS
    decreases n
  {
    if n == 0 then AddRoundKey(s, RoundKey(w, 0)) else InvRounds(w, InvRound(s, RoundKey(w, n)), n - 1)
  }

  /** Cipher() of section 5.1. */
  function Cipher(w: Schedule, s: Block): Block {
    hide Rounds, AddRoundKey, ShiftRows, SubBytes;
    AddRoundKey(ShiftRows(SubBytes(Rounds(w, s, ROUNDS - 1))), RoundKey(w, ROUNDS))
  }

  /** InvCipher() of section 5.3. */
  function InvCipher(w: Schedule, s: Block): Block {
    InvRounds(w, InvSubBytes(InvShiftRows(AddRoundKey(s, RoundKey(w, ROUNDS)))), ROUNDS - 1)
  }

  lemma RoundsInvert(s: Block, key: Block)
    ensures InvRound(Round(s, key), key) == s
    ensures Round(InvRound(s, key), key) == s
  {
    hide AddRoundKey, SubBytes, InvSubBytes, ShiftRows, InvShiftRows, MixColumns, InvMixColumns;
    AddRoundKeyInvolutive(MixColumns(ShiftRows(SubBytes(s))), key);
    MixColumnsInvert(ShiftRows(SubBytes(s)));
    ShiftRowsInvert(SubBytes(s));
    SubBytesInvert(s);
    var t := AddRoundKey(s, key);
    SubBytesInvert(InvShiftRows(InvMixColumns(t)));
    ShiftRowsInvert(InvMixColumns(t));
    MixColumnsInvert(t);
    AddRoundKeyInvolutive(s, key);
  }

  lemma {:induction false} AllRoundsInvert(w: Schedule, s: Block, n: nat)
    requires n < ROUNDS
    decreases n
    ensures InvRounds(w, Rounds(w, s, n), n) == s
    ensures Rounds(w, InvRounds(w, s, n), n) == s
  {
    hide AddRoundKey, Round, InvRound, RoundKey;
    if n == 0 {
      AddRoundKeyInvolutive(s, RoundKey(w, 0));
    } else {
      RoundsInvert(Rounds(w, s, n - 1), RoundKey(w, n));
      AllRoundsInvert(w, s, n - 1);
      RoundsInvert(s, RoundKey(w, n));
      AllRoundsInvert(w, InvRound(s, RoundKey(w, n)), n - 1);
    }
  }

  /** For every schedule, whether or not a key expands to it, the ciphers are inverse permutations of the blocks. */
  lemma CiphersInvert(w: Schedule, s: Block)
    ensures InvCipher(w, Cipher(w, s)) == s
    ensures Cipher(w, InvCipher(w, s)) == s
  {
    hide AddRoundKey, SubBytes, InvSubBytes, ShiftRows, InvShiftRows, Rounds, InvRounds, RoundKey;
    var last := RoundKey(w, ROUNDS);
    var t := Rounds(w, s, ROUNDS - 1);
    AddRoundKeyInvolutive(ShiftRows(SubBytes(t)), last);
    ShiftRowsInvert(SubBytes(t));
    SubBytesInvert(t);
    AllRoundsInvert(w, s, ROUNDS - 1);
    var u := AddRoundKey(s, last);
    var v := InvSubBytes(InvShiftRows(u));
    AllRoundsInvert(w, v, ROUNDS - 1);
    SubBytesInvert(InvShiftRows(u));
    ShiftRowsInvert(u);
    AddRoundKeyInvolutive(s, last);
  }

  // The rounds byte by byte, as sections 5.1.1 to 5.1.4 put them.

  /** The byte in row r' of the column c of a substituted and shifted state. */
  function ShiftedByte(s: Block, c: nat, r': nat): byte
    requires c < 4 && r' < 4
  {
    SBox(s[r' + 4 * ((c + r') % 4)])
  }

  lemma ShiftedBytes(s: Block, c: nat, r': nat)
    requires c < 4 && r' < 4
    ensures ShiftRows(SubBytes(s))[r' + 4 * c] == ShiftedByte(s, c, r')
  {
    hide SBox, ShiftRows;
    ShiftRowsRotates(SubBytes(s), r', c);
  }

  lemma MixedByte(s: Block, r: nat, c: nat)
    requires r < 4 && c < 4
    ensures MixColumns(s)[r + 4 * c] ==
            Row(MIX, s[r + 4 * c], s[(r + 1) % 4 + 4 * c], s[(r + 2) % 4 + 4 * c], s[(r + 3) % 4 + 4 * c])
  {
    hide Row, MultiplyColumns;
    ColumnsOf(MIX, s);
    var t := MultiplyColumns(MIX, s);
    var column := t[4 * c..4 * c + 4];
    assert column[r] == t[r + 4 * c];
    assert c == 0 || c == 1 || c == 2 || c == 3;
    assert r == 0 || r == 1 || r == 2 || r == 3;
  }

  lemma KeyedByte(w: Schedule, s: Block, n: nat, i: nat)
    requires n <= ROUNDS && i < BLOCK_BYTES
    ensures AddRoundKey(s, RoundKey(w, n))[i] == Xor(s[i], w[16 * n + i])
  {
    hide Xor;
  }

  /** The first state is the block with the first sixteen bytes of the schedule. */
  lemma StateBeforeRounds(w: Schedule, s: Block, i: nat)
    requires i < BLOCK_BYTES
    ensures Rounds(w, s, 0)[i] == Xor(s[i], w[i])
  {
    hide Xor, AddRoundKey, RoundKey;
    KeyedByte(w, s, 0, i);
  }

  /**
   * Round n: row r of the matrix times the substituted and shifted column c, and byte 16n + r + 4c of the schedule.
   */
  lemma StateAfterRound(w: Schedule, s: Block, n: nat, r: nat, c: nat)
    requires 1 <= n < ROUNDS && r < 4 && c < 4
    ensures
      var was := Rounds(w, s, n - 1);
      Rounds(w, s, n)[r + 4 * c] ==
      Xor(Row(MIX, SBox(was[r + 4 * ((c + r) % 4)]),
                   SBox(was[(r + 1) % 4 + 4 * ((c + (r + 1) % 4) % 4)]),
                   SBox(was[(r + 2) % 4 + 4 * ((c + (r + 2) % 4) % 4)]),
                   SBox(was[(r + 3) % 4 + 4 * ((c + (r + 3) % 4) % 4)])),
          w[16 * n + r + 4 * c])
  {
    hide Xor, Row, SBox, SubBytes, ShiftRows, MixColumns, AddRoundKey, RoundKey;
    var was := Rounds(w, s, n - 1);
    var shifted := ShiftRows(SubBytes(was));
    KeyedByte(w, MixColumns(shifted), n, r + 4 * c);
    ShiftedBytes(was, c, r);
    ShiftedBytes(was, c, (r + 1) % 4);
    ShiftedBytes(was, c, (r + 2) % 4);
    ShiftedBytes(was, c, (r + 3) % 4);
    MixedByte(shifted, r, c);
  }

  /** The last round does not multiply. */
  lemma StateAfterLastRound(w: Schedule, s: Block, r: nat, c: nat)
    requires r < 4 && c < 4
    ensures Cipher(w, s)[r + 4 * c] == Xor(SBox(Rounds(w, s, 13)[r + 4 * ((c + r) % 4)]), w[224 + r + 4 * c])
  {
    hide Xor, SBox, SubBytes, ShiftRows, Rounds, AddRoundKey, RoundKey;
    var shifted := ShiftRows(SubBytes(Rounds(w, s, 13)));
    KeyedByte(w, shifted, 14, r + 4 * c);
    ShiftedBytes(Rounds(w, s, 13), c, r);
  }

  // Cipher block chaining over whole blocks.

  function EncryptedBlock(w: Schedule, plain: Block, chain: Block): Block {
    Cipher(w, AddRoundKey(plain, chain))
  }

  function DecryptedBlock(w: Schedule, cipher: Block, chain: Block): Block {
    AddRoundKey(InvCipher(w, cipher), chain)
  }

  lemma BlocksInvert(w: Schedule, s: Block, chain: Block)
    ensures DecryptedBlock(w, EncryptedBlock(w, s, chain), chain) == s
    ensures EncryptedBlock(w, DecryptedBlock(w, s, chain), chain) == s
  {
    hide Cipher, InvCipher, AddRoundKey;
    CiphersInvert(w, AddRoundKey(s, chain));
    AddRoundKeyInvolutive(s, chain);
    AddRoundKeyInvolutive(InvCipher(w, s), chain);
    CiphersInvert(w, s);
  }

  ghost predicate WholeBlocks(data: seq<byte>) { |data| % BLOCK_BYTES == 0 }

  function CbcEncrypt(w: Schedule, iv: Block, plain: seq<byte>): (cipher: seq<byte>)
    requires WholeBlocks(plain)
    ensures |cipher| == |plain|
    decreases |plain|
  {
    hide EncryptedBlock;
    if plain == [] then [] else
      var c := EncryptedBlock(w, plain[..BLOCK_BYTES], iv);
      c + CbcEncrypt(w, c, plain[BLOCK_BYTES..])
  }

  function CbcDecrypt(w: Schedule, iv: Block, cipher: seq<byte>): (plain: seq<byte>)
    requires WholeBlocks(cipher)
    ensures |plain| == |cipher|
    decreases |cipher|
  {
    hide DecryptedBlock;
    if cipher == [] then [] else
      DecryptedBlock(w, cipher[..BLOCK_BYTES], iv)
      + CbcDecrypt(w, cipher[..BLOCK_BYTES], cipher[BLOCK_BYTES..])
  }

  lemma {:induction false} CbcDecryptsEncrypted(w: Schedule, iv: Block, plain: seq<byte>)
    requires WholeBlocks(plain)
    ensures CbcDecrypt(w, iv, CbcEncrypt(w, iv, plain)) == plain
    decreases |plain|
  {
    hide EncryptedBlock, DecryptedBlock;
    if plain != [] {
      assert |plain| >= BLOCK_BYTES;
      var c: Block := EncryptedBlock(w, plain[..BLOCK_BYTES], iv);
      var rest := CbcEncrypt(w, c, plain[BLOCK_BYTES..]);
      assert (c + rest)[..BLOCK_BYTES] == c && (c + rest)[BLOCK_BYTES..] == rest;
      BlocksInvert(w, plain[..BLOCK_BYTES], iv);
      CbcDecryptsEncrypted(w, c, plain[BLOCK_BYTES..]);
    }
  }

  lemma {:induction false} CbcEncryptsDecrypted(w: Schedule, iv: Block, cipher: seq<byte>)
    requires WholeBlocks(cipher)
    ensures CbcEncrypt(w, iv, CbcDecrypt(w, iv, cipher)) == cipher
    decreases |cipher|
  {
    hide EncryptedBlock, DecryptedBlock;
    if cipher != [] {
      assert |cipher| >= BLOCK_BYTES;
      var c: Block := cipher[..BLOCK_BYTES];
      var p: Block := DecryptedBlock(w, c, iv);
      var rest := CbcDecrypt(w, c, cipher[BLOCK_BYTES..]);
      assert (p + rest)[..BLOCK_BYTES] == p && (p + rest)[BLOCK_BYTES..] == rest;
      BlocksInvert(w, c, iv);
      CbcEncryptsDecrypted(w, c, cipher[BLOCK_BYTES..]);
    }
  }

  /** Block i of a ciphertext is the cipher of plaintext block i added to the ciphertext block before it. */
  lemma {:induction false} CipherBlocks(w: Schedule, iv: Block, plain: seq<byte>, cipher: seq<byte>, i: nat, x: Block)
    requires WholeBlocks(plain) && 16 * i + 16 <= |plain| && cipher == CbcEncrypt(w, iv, plain)
    requires forall j | 0 <= j < 16 :: x[j] == Xor(plain[16 * i + j], if i == 0 then iv[j] else cipher[16 * i - 16 + j])
    ensures cipher[16 * i..16 * i + 16] == Cipher(w, x)
    decreases i
  {
    hide Cipher, Xor;
    var first: Block := plain[..16];
    var c := EncryptedBlock(w, first, iv);
    var rest := CbcEncrypt(w, c, plain[16..]);
    assert cipher == c + rest;
    if i == 0 {
      assert AddRoundKey(first, iv) == x;
    } else {
      var tail := plain[16..];
      assert forall k | 0 <= k < |tail| :: tail[k] == plain[16 + k];
      CipherBlocks(w, c, tail, rest, i - 1, x);
      assert cipher[16 * i..16 * i + 16] == rest[16 * (i - 1)..16 * (i - 1) + 16];
    }
  }

  // KeyExpansion() of section 5.2, for Nk = 8.

  function XorWords(a: Word, b: Word): Word {
    [Xor(a[0], b[0]), Xor(a[1], b[1]), Xor(a[2], b[2]), Xor(a[3], b[3])]
  }

  function SubWord(a: Word): Word { [SBox(a[0]), SBox(a[1]), SBox(a[2]), SBox(a[3])] }

  function RotWord(a: Word): Word { [a[1], a[2], a[3], a[0]] }

  /** x to the power j - 1 in GF(2^8). */
  function RoundConstant(j: nat): byte
    requires j >= 1
  {
    if j == 1 then 1 else GF_p8_mul3(RoundConstant(j - 1))
  }

  function ExpandedWord(key: Key, i: nat): Word {
    if i < 8 then key[4 * i..4 * i + 4] else
      var temp := ExpandedWord(key, i - 1);
      XorWords(ExpandedWord(key, i - 8),
               if i % 8 == 0 then XorWords(SubWord(RotWord(temp)), [RoundConstant(i / 8), 0, 0, 0])
               else if i % 8 == 4 then SubWord(temp)
               else temp)
  }

  function KeyExpansion(key: Key): Schedule {
    seq(KEY_SCHEDULE_BYTES, i requires 0 <= i < KEY_SCHEDULE_BYTES => ExpandedWord(key, i / 4)[i % 4])
  }
}

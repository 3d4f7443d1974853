/** The in-place cipher of src/base/unverified_aes256.cc. A pointer into a byte buffer is an array and an offset;
    each method is proved against its function in AesSpec and leaves the rest of the buffer as it was. */
module Aes256 {
  import opened Gf256
  import opened AesTables
  import S = AesSpec

  /** `s` with the bytes from `at` on replaced by `t`. */
  function Spliced(s: seq<byte>, at: nat, t: seq<byte>): seq<byte>
    requires at + |t| <= |s|
  {
    s[..at] + t + s[at + |t|..]
  }

  method AddRoundKey(block: array<byte>, at: nat, w: array<byte>, from: nat)
    requires at + 16 <= block.Length && from + 16 <= w.Length && w != block
    modifies block
    ensures block[..] == old(Spliced(block[..], at, S.AddRoundKey(block[at..at + 16], w[from..from + 16])))
  {
    for i := 0 to 16
      invariant forall k | 0 <= k < block.Length && !(at <= k < at + i) :: block[k] == old(block[k])
      invariant forall k | at <= k < at + i :: block[k] == Xor(old(block[k]), w[from + k - at])
    {
      block[at + i] := block[at + i] ^ w[from + i];
    }
  }

  /** Writes the four bytes of a column. */
  method Store(column: array<byte>, at: nat, t: S.Word)
    requires at + 4 <= column.Length
    modifies column
    ensures column[..] == old(Spliced(column[..], at, t))
  {
    column[at] := t[0];
    column[at + 1] := t[1];
    column[at + 2] := t[2];
    column[at + 3] := t[3];
  }

  /** The rows of a product, as MixColumnsImpl adds them up. */
  lemma MixedColumn(s: S.Word, a1: S.Word, a2: S.Word, a3: S.Word)
    requires forall k | 0 <= k < 4 :: a1[k] == Mul(1, s[k]) && a2[k] == Mul(2, s[k]) && a3[k] == Mul(3, s[k])
    ensures S.MultipliedColumn(MIX, s) ==
            [Sum(a2[0], a3[1], a1[2], a1[3]), Sum(a1[0], a2[1], a3[2], a1[3]),
             Sum(a1[0], a1[1], a2[2], a3[3]), Sum(a3[0], a1[1], a1[2], a2[3])]
  {
    hide Mul, Sum;
    SumRotated(a1[0], a2[1], a3[2], a1[3]);
    SumRotated(a1[0], a1[1], a2[2], a3[3]);
    SumRotated(a3[0], a1[1], a1[2], a2[3]);
  }

  /** The rows of the inverse product, as InvMixColumnsImpl adds them up. */
  lemma UnmixedColumn(s: S.Word, a9: S.Word, a11: S.Word, a13: S.Word, a14: S.Word)
    requires forall k | 0 <= k < 4 :: a9[k] == Mul(9, s[k]) && a11[k] == Mul(11, s[k])
    requires forall k | 0 <= k < 4 :: a13[k] == Mul(13, s[k]) && a14[k] == Mul(14, s[k])
    ensures S.MultipliedColumn(INV_MIX, s) ==
            [Sum(a14[0], a11[1], a13[2], a9[3]), Sum(a9[0], a14[1], a11[2], a13[3]),
             Sum(a13[0], a9[1], a14[2], a11[3]), Sum(a11[0], a13[1], a9[2], a14[3])]
  {
    hide Mul, Sum;
    SumRotated(a9[0], a14[1], a11[2], a13[3]);
    SumRotated(a13[0], a9[1], a14[2], a11[3]);
    SumRotated(a11[0], a13[1], a9[2], a14[3]);
  }

  method MixColumnsImpl(column: array<byte>, at: nat)
    requires at + 4 <= column.Length
    modifies column
    ensures column[..] == old(Spliced(column[..], at, S.MultipliedColumn(MIX, column[at..at + 4])))
  {
    hide Xor, Sum, GF_p8_mul3, Mul, S.MultipliedColumn;
    ghost var s := column[at..at + 4];
    var a1 := new byte[4];
    var a2 := new byte[4];
    var a3 := new byte[4];
    for i := 0 to 4
      invariant unchanged(column)
      invariant forall k | 0 <= k < i :: a1[k] == Mul(1, s[k])
      invariant forall k | 0 <= k < i :: a2[k] == Mul(2, s[k]) && a3[k] == Mul(3, s[k])
    {
      a1[i] := column[at + i];
      a2[i] := GF_p8_mul3(a1[i]);
      a3[i] := Xor(a2[i], a1[i]);
      SmallProducts(a1[i]);
    }
    var c0 := Sum(a2[0], a3[1], a1[2], a1[3]);
    var c1 := Sum(a1[0], a2[1], a3[2], a1[3]);
    var c2 := Sum(a1[0], a1[1], a2[2], a3[3]);
    var c3 := Sum(a3[0], a1[1], a1[2], a2[3]);
    MixedColumn(s, a1[..], a2[..], a3[..]);
    Store(column, at, [c0, c1, c2, c3]);
  }

  method InvMixColumnsImpl(column: array<byte>, at: nat)
    requires at + 4 <= column.Length
    modifies column
    ensures column[..] == old(Spliced(column[..], at, S.MultipliedColumn(INV_MIX, column[at..at + 4])))
  {
    hide Xor, Sum, GF_p8_mul3, Mul, S.MultipliedColumn;
    ghost var s := column[at..at + 4];
    var a9 := new byte[4];
    var a11 := new byte[4];
    var a13 := new byte[4];
    var a14 := new byte[4];
    for i := 0 to 4
      invariant unchanged(column)
      invariant forall k | 0 <= k < i :: a9[k] == Mul(9, s[k]) && a11[k] == Mul(11, s[k])
      invariant forall k | 0 <= k < i :: a13[k] == Mul(13, s[k]) && a14[k] == Mul(14, s[k])
    {
      var a1 := column[at + i];
      var a2 := GF_p8_mul3(a1);
      var a2_2 := GF_p8_mul3(a2);
      var a2a1_2 := GF_p8_mul3(Xor(a2, a1));
      ComposedProducts(a1);
      a9[i], a11[i] := Xor(GF_p8_mul3(a2_2), a1), Xor(GF_p8_mul3(Xor(a2_2, a1)), a1);
      a13[i], a14[i] := Xor(GF_p8_mul3(a2a1_2), a1), GF_p8_mul3(Xor(a2a1_2, a1));
    }
    var c0 := Sum(a14[0], a11[1], a13[2], a9[3]);
    var c1 := Sum(a9[0], a14[1], a11[2], a13[3]);
    var c2 := Sum(a13[0], a9[1], a14[2], a11[3]);
    var c3 := Sum(a11[0], a13[1], a9[2], a14[3]);
    UnmixedColumn(s, a9[..], a11[..], a13[..], a14[..]);
    Store(column, at, [c0, c1, c2, c3]);
  }

  method SubBytes(block: array<byte>, at: nat)
    requires at + 16 <= block.Length
    modifies block
    ensures block[..] == old(Spliced(block[..], at, S.SubBytes(block[at..at + 16])))
  {
    hide SBox;
    for i := 0 to 16
      invariant forall k | 0 <= k < block.Length && !(at <= k < at + i) :: block[k] == old(block[k])
      invariant forall k | at <= k < at + i :: block[k] == SBox(old(block[k]))
    {
      block[at + i] := SBox(block[at + i]);
    }
  }

  method InvSubBytes(block: array<byte>, at: nat)
    requires at + 16 <= block.Length
    modifies block
    ensures block[..] == old(Spliced(block[..], at, S.InvSubBytes(block[at..at + 16])))
  {
    hide InvSBox;
    for i := 0 to 16
      invariant forall k | 0 <= k < block.Length && !(at <= k < at + i) :: block[k] == old(block[k])
      invariant forall k | at <= k < at + i :: block[k] == InvSBox(old(block[k]))
    {
      block[at + i] := InvSBox(block[at + i]);
    }
  }

  // A loop over the four columns of a block, each spliced in turn.

  ghost predicate ColumnsMultiplied(k: Factors, was: seq<byte>, now: seq<byte>, at: nat, count: nat)
    requires at + 16 <= |was| == |now| && count <= 4
  {
    && now[..at] == was[..at]
    && (forall c | 0 <= c < count :: Column(now, at, c) == S.MultipliedColumn(k, Column(was, at, c)))
    && now[at + 4 * count..] == was[at + 4 * count..]
  }

  function Column(s: seq<byte>, at: nat, c: nat): S.Word
    requires at + 16 <= |s| && c < 4
  {
    s[at + 4 * c..at + 4 * c + 4]
  }

  lemma OneMoreColumn(k: Factors, was: seq<byte>, now: seq<byte>, next: seq<byte>, at: nat, count: nat)
    requires at + 16 <= |was| == |now| && count < 4
    requires ColumnsMultiplied(k, was, now, at, count)
    requires next == Spliced(now, at + 4 * count, S.MultipliedColumn(k, Column(now, at, count)))
    ensures ColumnsMultiplied(k, was, next, at, count + 1)
  {
    hide S.MultipliedColumn;
    var here := at + 4 * count;
    forall c | 0 <= c < count
      ensures Column(next, at, c) == Column(now, at, c)
    {
      assert at + 4 * c + 4 <= here;
      assert next[..here] == now[..here];
      assert Column(next, at, c) == next[..here][at + 4 * c..at + 4 * c + 4];
      assert Column(now, at, c) == now[..here][at + 4 * c..at + 4 * c + 4];
    }
    assert Column(now, at, count) == now[here..][..4] == was[here..][..4] == Column(was, at, count);
    assert next[here + 4..] == now[here..][4..] == was[here..][4..] == was[here + 4..];
  }

  lemma SliceOfSlice(s: seq<byte>, from: nat, to: nat, low: nat, high: nat)
    requires low <= high <= to - from && to <= |s|
    ensures s[from..to][low..high] == s[from + low..from + high]
  {
    var t, u := s[from..to], s[from + low..from + high];
    var v := t[low..high];
    assert forall i | 0 <= i < |u| :: u[i] == s[from + low + i] && v[i] == t[low + i] == s[from + low + i];
  }

  lemma AllColumns(k: Factors, was: seq<byte>, now: seq<byte>, at: nat)
    requires at + 16 <= |was| == |now| && ColumnsMultiplied(k, was, now, at, 4)
    ensures now == Spliced(was, at, S.MultiplyColumns(k, was[at..at + 16]))
  {
    hide S.MultipliedColumn;
    var s := was[at..at + 16];
    SliceOfSlice(was, at, at + 16, 0, 4);
    SliceOfSlice(was, at, at + 16, 4, 8);
    SliceOfSlice(was, at, at + 16, 8, 12);
    SliceOfSlice(was, at, at + 16, 12, 16);
    assert now == now[..at]
                  + (Column(now, at, 0) + Column(now, at, 1) + Column(now, at, 2) + Column(now, at, 3))
                  + now[at + 16..];
  }

  method MixColumns(block: array<byte>, at: nat)
    requires at + 16 <= block.Length
    modifies block
    ensures block[..] == old(Spliced(block[..], at, S.MixColumns(block[at..at + 16])))
  {
    hide S.MultipliedColumn, S.MultiplyColumns;
    for c := 0 to 4
      invariant ColumnsMultiplied(MIX, old(block[..]), block[..], at, c)
    {
      ghost var now := block[..];
      MixColumnsImpl(block, at + 4 * c);
      OneMoreColumn(MIX, old(block[..]), now, block[..], at, c);
    }
    AllColumns(MIX, old(block[..]), block[..], at);
  }

  method InvMixColumns(block: array<byte>, at: nat)
    requires at + 16 <= block.Length
    modifies block
    ensures block[..] == old(Spliced(block[..], at, S.InvMixColumns(block[at..at + 16])))
  {
    hide S.MultipliedColumn, S.MultiplyColumns;
    for c := 0 to 4
      invariant ColumnsMultiplied(INV_MIX, old(block[..]), block[..], at, c)
    {
      ghost var now := block[..];
      InvMixColumnsImpl(block, at + 4 * c);
      OneMoreColumn(INV_MIX, old(block[..]), now, block[..], at, c);
    }
    AllColumns(INV_MIX, old(block[..]), block[..], at);
  }

  /** Moves the byte at `i` to `l`, and those at `j`, `k` and `l` one place on, as the program does for rows 1 and 3. */
  method Rotate(block: array<byte>, i: nat, j: nat, k: nat, l: nat)
    requires i < block.Length && j < block.Length && k < block.Length && l < block.Length
    requires i != j && i != k && i != l && j != k && j != l && k != l
    modifies block
    ensures block[..] == old(block[..][i := block[j]][j := block[k]][k := block[l]][l := block[i]])
  {
    var x := block[i];
    block[i] := block[j];
    block[j] := block[k];
    block[k] := block[l];
    block[l] := x;
  }

  method Swap(block: array<byte>, i: nat, j: nat)
    requires i < block.Length && j < block.Length
    modifies block
    ensures block[..] == old(block[..][i := block[j]][j := block[i]])
  {
    block[i], block[j] := block[j], block[i];
  }

  method ShiftRows(block: array<byte>, at: nat)
    requires at + 16 <= block.Length
    modifies block
    ensures block[..] == old(Spliced(block[..], at, S.ShiftRows(block[at..at + 16])))
  {
    Rotate(block, at + 1, at + 5, at + 9, at + 13);
    Swap(block, at + 2, at + 10);
    Swap(block, at + 6, at + 14);
    Rotate(block, at + 3, at + 15, at + 11, at + 7);
    ShiftedInPlace(old(block[..]), at, block[..]);
  }

  lemma ShiftedInPlace(t: seq<byte>, at: nat, u: seq<byte>)
    requires at + 16 <= |t|
    requires u == t[at + 1 := t[at + 5]][at + 5 := t[at + 9]][at + 9 := t[at + 13]][at + 13 := t[at + 1]]
                   [at + 2 := t[at + 10]][at + 10 := t[at + 2]][at + 6 := t[at + 14]][at + 14 := t[at + 6]]
                   [at + 3 := t[at + 15]][at + 15 := t[at + 11]][at + 11 := t[at + 7]][at + 7 := t[at + 3]]
    ensures u == Spliced(t, at, S.ShiftRows(t[at..at + 16]))
  {
    var s := t[at..at + 16];
    assert u[at..at + 16] == S.ShiftRows(s);
    assert forall k | 0 <= k < |t| && !(at <= k < at + 16) :: u[k] == t[k];
    assert u == u[..at] + u[at..at + 16] + u[at + 16..];
    assert u[..at] == t[..at] && u[at + 16..] == t[at + 16..];
  }

  method InvShiftRows(block: array<byte>, at: nat)
    requires at + 16 <= block.Length
    modifies block
    ensures block[..] == old(Spliced(block[..], at, S.InvShiftRows(block[at..at + 16])))
  {
    Rotate(block, at + 1, at + 13, at + 9, at + 5);
    Swap(block, at + 2, at + 10);
    Swap(block, at + 6, at + 14);
    Rotate(block, at + 3, at + 7, at + 11, at + 15);
    InvShiftedInPlace(old(block[..]), at, block[..]);
  }

  lemma InvShiftedInPlace(t: seq<byte>, at: nat, u: seq<byte>)
    requires at + 16 <= |t|
    requires u == t[at + 1 := t[at + 13]][at + 13 := t[at + 9]][at + 9 := t[at + 5]][at + 5 := t[at + 1]]
                   [at + 2 := t[at + 10]][at + 10 := t[at + 2]][at + 6 := t[at + 14]][at + 14 := t[at + 6]]
                   [at + 3 := t[at + 7]][at + 7 := t[at + 11]][at + 11 := t[at + 15]][at + 15 := t[at + 3]]
    ensures u == Spliced(t, at, S.InvShiftRows(t[at..at + 16]))
  {
    var s := t[at..at + 16];
    assert u[at..at + 16] == S.InvShiftRows(s);
    assert forall k | 0 <= k < |t| && !(at <= k < at + 16) :: u[k] == t[k];
    assert u == u[..at] + u[at..at + 16] + u[at + 16..];
    assert u[..at] == t[..at] && u[at + 16..] == t[at + 16..];
  }

  // Whole blocks.

  /** Splicing blocks at one place: the last one counts, and can be read back. */
  lemma Splicing(at: nat)
    ensures forall s, t: S.Block {:trigger Spliced(s, at, t)} | at + 16 <= |s| ::
              |Spliced(s, at, t)| == |s| && Spliced(s, at, t)[at..at + 16] == t
    ensures forall s, t: S.Block, u: S.Block {:trigger Spliced(Spliced(s, at, t), at, u)} | at + 16 <= |s| ::
              Spliced(Spliced(s, at, t), at, u) == Spliced(s, at, u)
  {}

  method TransformECB(w: array<byte>, block: array<byte>, at: nat)
    requires w.Length == S.KEY_SCHEDULE_BYTES && at + 16 <= block.Length && w != block
    modifies block
    ensures block[..] == old(Spliced(block[..], at, S.Cipher(w[..], block[at..at + 16])))
  {
    hide S.AddRoundKey, S.SubBytes, S.ShiftRows, S.MixColumns, Spliced;
    Splicing(at);
    ghost var was, s := block[..], block[at..at + 16];
    AddRoundKey(block, at, w, 0);
    for round := 1 to S.ROUNDS
      invariant w[..] == old(w[..])
      invariant block[..] == Spliced(was, at, S.Rounds(w[..], s, round - 1))
    {
      SubBytes(block, at);
      ShiftRows(block, at);
      MixColumns(block, at);
      AddRoundKey(block, at, w, S.BLOCK_BYTES * round);
    }
    SubBytes(block, at);
    ShiftRows(block, at);
    AddRoundKey(block, at, w, S.BLOCK_BYTES * S.ROUNDS);
  }

  method InverseTransformECB(w: array<byte>, block: array<byte>, at: nat)
    requires w.Length == S.KEY_SCHEDULE_BYTES && at + 16 <= block.Length && w != block
    modifies block
    ensures block[..] == old(Spliced(block[..], at, S.InvCipher(w[..], block[at..at + 16])))
  {
    hide S.AddRoundKey, S.InvSubBytes, S.InvShiftRows, S.InvMixColumns, Spliced;
    Splicing(at);
    ghost var was, s := block[..], block[at..at + 16];
    AddRoundKey(block, at, w, S.BLOCK_BYTES * S.ROUNDS);
    InvShiftRows(block, at);
    InvSubBytes(block, at);
    ghost var t := block[at..at + 16];
    for round := S.ROUNDS - 1 downto 0
      invariant w[..] == old(w[..])
      invariant block[..] == Spliced(was, at, block[at..at + 16])
      invariant S.InvRounds(w[..], t, S.ROUNDS - 1) == S.InvRounds(w[..], block[at..at + 16], round)
    {
      AddRoundKey(block, at, w, S.BLOCK_BYTES * (round + 1));
      InvMixColumns(block, at);
      InvShiftRows(block, at);
      InvSubBytes(block, at);
    }
    AddRoundKey(block, at, w, 0);
  }

  // The key schedule.

  function KeyByte(key: S.Key, j: nat): byte {
    S.ExpandedWord(key, j / 4)[j % 4]
  }

  lemma RoundConstants(base: nat)
    requires 1 <= base <= 7
    ensures S.RoundConstant(base) == 1 << (base - 1)
  {
    if base > 1 {
      RoundConstants(base - 1);
      assert base == 2 || base == 3 || base == 4 || base == 5 || base == 6 || base == 7;
    }
  }

  lemma XorWithZero(a: byte)
    ensures Xor(a, 0) == a
  {}

  lemma ByteOfWord(key: S.Key, n: nat, r: nat)
    requires r < 4
    ensures KeyByte(key, 4 * n + r) == S.ExpandedWord(key, n)[r]
  {
    hide S.ExpandedWord;
    assert (4 * n + r) / 4 == n && (4 * n + r) % 4 == r;
  }

  /** Word `q` of a group of eight, from the word before it and the group before it. */
  lemma WordOfGroup(key: S.Key, base: nat, q: nat)
    requires 1 <= base && q < 8
    ensures var temp := S.ExpandedWord(key, 8 * base + q - 1);
            S.ExpandedWord(key, 8 * base + q) == S.XorWords(
              S.ExpandedWord(key, 8 * base + q - 8),
              if q == 0 then S.XorWords(S.SubWord(S.RotWord(temp)), [S.RoundConstant(base), 0, 0, 0])
              else if q == 4 then S.SubWord(temp)
              else temp)
  {
    hide S.XorWords, S.SubWord, S.RotWord, S.RoundConstant;
    assert (8 * base + q) % 8 == q && (8 * base + q) / 8 == base;
  }

  lemma WordsAt(a: S.Word, b: S.Word, r: nat)
    requires r < 4
    ensures S.XorWords(a, b)[r] == Xor(a[r], b[r])
    ensures S.SubWord(a)[r] == SBox(a[r])
    ensures S.RotWord(a)[r] == a[if r < 3 then r + 1 else 0]
  {
    hide SBox, Xor;
  }

  lemma FirstWordByte(key: S.Key, base: nat, r: nat, next: nat)
    requires 1 <= base <= 7 && r < 4 && next == if r < 3 then r + 1 else 0
    ensures var sum := Xor(KeyByte(key, 32 * base - 32 + r), SBox(KeyByte(key, 32 * base - 4 + next)));
            KeyByte(key, 32 * base + r) == if r == 0 then Xor(sum, S.RoundConstant(base)) else sum
  {
    hide SBox, Xor, S.RoundConstant, S.ExpandedWord, KeyByte, S.XorWords, S.SubWord, S.RotWord;
    WordOfGroup(key, base, 0);
    var temp, was := S.ExpandedWord(key, 8 * base - 1), S.ExpandedWord(key, 8 * base - 8);
    var rcon: S.Word := [S.RoundConstant(base), 0, 0, 0];
    var changed := S.XorWords(S.SubWord(S.RotWord(temp)), rcon);
    WordsAt(was, changed, r);
    WordsAt(S.SubWord(S.RotWord(temp)), rcon, r);
    WordsAt(S.RotWord(temp), rcon, r);
    WordsAt(temp, rcon, r);
    ByteOfWord(key, 8 * base, r);
    ByteOfWord(key, 8 * base - 8, r);
    ByteOfWord(key, 8 * base - 1, next);
    assert 4 * (8 * base) + r == 32 * base + r && 4 * (8 * base - 8) + r == 32 * base - 32 + r;
    assert 4 * (8 * base - 1) + next == 32 * base - 4 + next;
    XorAssociates(was[r], SBox(temp[next]), rcon[r]);
    XorWithZero(SBox(temp[next]));
  }

  lemma OtherWords(key: S.Key, base: nat, i: nat)
    requires 1 <= base <= 7 && 4 <= i < 32
    ensures var temp := KeyByte(key, 32 * base + i - 4);
            KeyByte(key, 32 * base + i) == Xor(KeyByte(key, 32 * base - 32 + i), if 16 <= i < 20 then SBox(temp) else temp)
  {
    hide SBox, Xor, S.ExpandedWord, KeyByte, S.XorWords, S.SubWord, S.RotWord, S.RoundConstant;
    var q, r := i / 4, i % 4;
    WordOfGroup(key, base, q);
    var temp, was := S.ExpandedWord(key, 8 * base + q - 1), S.ExpandedWord(key, 8 * base + q - 8);
    WordsAt(was, if q == 4 then S.SubWord(temp) else temp, r);
    WordsAt(temp, was, r);
    ByteOfWord(key, 8 * base + q, r);
    ByteOfWord(key, 8 * base + q - 8, r);
    ByteOfWord(key, 8 * base + q - 1, r);
    assert 4 * (8 * base + q) + r == 32 * base + i;
    assert 4 * (8 * base + q - 8) + r == 32 * base - 32 + i;
    assert 4 * (8 * base + q - 1) + r == 32 * base + i - 4;
  }

  lemma KeyItself(key: S.Key, j: nat)
    requires j < 32
    ensures KeyByte(key, j) == key[j]
  {}

  lemma ScheduleBytes(key: S.Key, w: seq<byte>)
    requires |w| == 240 && forall j | 0 <= j < 240 :: w[j] == KeyByte(key, j)
    ensures w == S.KeyExpansion(key)
  {
    hide S.ExpandedWord;
  }

  ghost predicate Expanded(key: S.Key, w: array<byte>, count: nat)
    reads w
  {
    count <= w.Length && forall j | 0 <= j < count :: w[j] == KeyByte(key, j)
  }

  /** The program's two rules for the byte at `k + i`, once the bytes before it are right. */
  lemma NextByte(key: S.Key, w: array<byte>, base: nat, k: nat, i: nat)
    requires 1 <= base <= 7 && k == 32 * base && 4 <= i < 32 && Expanded(key, w, k + i)
    ensures KeyByte(key, k + i) == Xor(w[k - 32 + i], if 16 <= i < 20 then SBox(w[k + i - 4]) else w[k + i - 4])
  {
    hide SBox, Xor, KeyByte;
    OtherWords(key, base, i);
  }

  /** The first word of a group of eight. */
  method ExpandFirstWord(ghost key: S.Key, w: array<byte>, base: nat)
    requires 1 <= base <= 7 && 32 * base + 4 <= w.Length && Expanded(key, w, 32 * base)
    modifies w
    ensures Expanded(key, w, 32 * base + 4)
  {
    hide SBox, Xor, KeyByte, S.RoundConstant;
    var k := base * S.KEY_BYTES;
    var prev := k - S.KEY_BYTES;
    var rcon := 1 << (base - 1);
    RoundConstants(base);
    FirstWordByte(key, base, 0, 1);
    w[k] := Xor(Xor(w[prev], SBox(w[prev + 29])), rcon);
    assert Expanded(key, w, k + 1);
    FirstWordByte(key, base, 1, 2);
    w[k + 1] := Xor(w[prev + 1], SBox(w[prev + 30]));
    assert Expanded(key, w, k + 2);
    FirstWordByte(key, base, 2, 3);
    w[k + 2] := Xor(w[prev + 2], SBox(w[prev + 31]));
    assert Expanded(key, w, k + 3);
    FirstWordByte(key, base, 3, 0);
    w[k + 3] := Xor(w[prev + 3], SBox(w[prev + 28]));
  }

  /** The bytes `first` to `last` of a group of eight words; those of its fifth word are substituted. */
  method ExpandBytes(ghost key: S.Key, w: array<byte>, base: nat, first: nat, last: nat)
    requires 1 <= base <= 7 && 4 <= first <= last <= 32 && 32 * base + last <= w.Length
    requires Expanded(key, w, 32 * base + first)
    modifies w
    ensures Expanded(key, w, 32 * base + last)
  {
    hide SBox, Xor, KeyByte;
    var k := base * S.KEY_BYTES;
    var prev := k - S.KEY_BYTES;
    for i := first to last
      invariant Expanded(key, w, k + i)
    {
      NextByte(key, w, base, k, i);
      w[k + i] := Xor(w[prev + i], if 16 <= i < 20 then SBox(w[k + i - 4]) else w[k + i - 4]);
    }
  }

  method MakeKeySchedule(key: array<byte>, w: array<byte>)
    requires key.Length == S.KEY_BYTES && w.Length == S.KEY_SCHEDULE_BYTES && key != w
    modifies w
    ensures w[..] == S.KeyExpansion(key[..])
  {
    hide KeyByte, S.KeyExpansion;
    ghost var bytes: S.Key := key[..];
    for i := 0 to S.KEY_BYTES
      invariant Expanded(bytes, w, i)
    {
      KeyItself(bytes, i);
      w[i] := key[i];
    }
    var base := 1;
    while true
      invariant 1 <= base <= 7
      invariant Expanded(bytes, w, S.KEY_BYTES * base)
      decreases 7 - base
    {
      ExpandFirstWord(bytes, w, base);
      ExpandBytes(bytes, w, base, 4, 16);
      if base == 7 {
        ScheduleBytes(bytes, w[..]);
        break;
      }
      ExpandBytes(bytes, w, base, 16, 20);
      ExpandBytes(bytes, w, base, 20, 32);
      base := base + 1;
    }
  }

  // Cipher block chaining, in place over the first `blockCount` blocks of a buffer.

  method CopyBlock(from: array<byte>, at: nat, to: array<byte>)
    requires at + 16 <= from.Length && to.Length == 16 && to != from
    modifies to
    ensures to[..] == from[at..at + 16]
  {
    for j := 0 to 16
      invariant forall k | 0 <= k < j :: to[k] == from[at + k]
    {
      to[j] := from[at + j];
    }
  }

  /** One block done: the result `first + rest` of what was left to do is now spread over the buffer and `rest`. */
  lemma OneBlockDone(before: seq<byte>, after: seq<byte>, first: S.Block, rest: seq<byte>, at: nat, end: nat)
    requires at + 16 <= end <= |before| && after == Spliced(before, at, first)
    ensures |after| == |before| && after[at..at + 16] == first
    ensures before[at..end][..16] == before[at..at + 16] && before[at..end][16..] == after[at + 16..end]
    ensures after[end..] == before[end..]
    ensures before[..at] + (first + rest) == after[..at + 16] + rest
  {}

  lemma NoBlocks(w: S.Schedule, iv: S.Block)
    ensures S.CbcEncrypt(w, iv, []) == [] == S.CbcDecrypt(w, iv, [])
  {}

  /** One step of the chain. */
  method EncryptBlock(w: array<byte>, block: array<byte>, at: nat, vec: array<byte>)
    requires w.Length == S.KEY_SCHEDULE_BYTES && vec.Length == 16 && at + 16 <= block.Length && w != block && vec != block
    modifies block
    ensures block[..] == old(Spliced(block[..], at, S.EncryptedBlock(w[..], block[at..at + 16], vec[..])))
  {
    hide S.Cipher, S.AddRoundKey, Spliced;
    Splicing(at);
    assert vec[0..16] == vec[..];
    AddRoundKey(block, at, vec, 0);
    assert block[..][at..at + 16] == block[at..at + 16];
    TransformECB(w, block, at);
  }

  method DecryptBlock(w: array<byte>, block: array<byte>, at: nat, vec: array<byte>)
    requires w.Length == S.KEY_SCHEDULE_BYTES && vec.Length == 16 && at + 16 <= block.Length && w != block && vec != block
    modifies block
    ensures block[..] == old(Spliced(block[..], at, S.DecryptedBlock(w[..], block[at..at + 16], vec[..])))
  {
    hide S.InvCipher, S.AddRoundKey, Spliced;
    Splicing(at);
    assert vec[0..16] == vec[..];
    InverseTransformECB(w, block, at);
    assert block[..][at..at + 16] == block[at..at + 16];
    AddRoundKey(block, at, vec, 0);
  }

  method TransformCBC(key: array<byte>, iv: array<byte>, block: array<byte>, blockCount: nat)
    requires key.Length == S.KEY_BYTES && iv.Length == S.BLOCK_BYTES && 16 * blockCount <= block.Length
    requires key != block && iv != block
    modifies block
    ensures block[..16 * blockCount] ==
            old(S.CbcEncrypt(S.KeyExpansion(key[..]), iv[..], block[..16 * blockCount]))
    ensures block[16 * blockCount..] == old(block[16 * blockCount..])
  {
    hide S.KeyExpansion, S.EncryptedBlock, Spliced;
    var w := new byte[240];
    MakeKeySchedule(key, w);
    var vec := new byte[16];
    CopyBlock(iv, 0, vec);
    assert vec[..] == iv[..];
    ghost var schedule: S.Schedule, end := w[..], 16 * blockCount;
    ghost var result := S.CbcEncrypt(schedule, vec[..], block[..end]);
    for i := 0 to blockCount
      invariant w[..] == schedule
      invariant result == block[..16 * i] + S.CbcEncrypt(schedule, vec[..], block[16 * i..end])
      invariant block[end..] == old(block[end..])
    {
      var src := 16 * i;
      ghost var before, p: S.Block, chain: S.Block := block[..], block[src..src + 16], vec[..];
      EncryptBlock(w, block, src, vec);
      ghost var c: S.Block := S.EncryptedBlock(schedule, p, chain);
      ghost var rest := S.CbcEncrypt(schedule, c, before[src..end][16..]);
      OneBlockDone(before, block[..], c, rest, src, end);
      assert |before[src..end]| >= 16 && before[src..end][..S.BLOCK_BYTES] == p;
      assert S.CbcEncrypt(schedule, chain, before[src..end]) == c + rest;
      CopyBlock(block, src, vec);
    }
    assert block[end..end] == [];
    NoBlocks(schedule, vec[..]);
  }

  method InverseTransformCBC(key: array<byte>, iv: array<byte>, block: array<byte>, blockCount: nat)
    requires key.Length == S.KEY_BYTES && iv.Length == S.BLOCK_BYTES && 16 * blockCount <= block.Length
    requires key != block && iv != block
    modifies block
    ensures block[..16 * blockCount] ==
            old(S.CbcDecrypt(S.KeyExpansion(key[..]), iv[..], block[..16 * blockCount]))
    ensures block[16 * blockCount..] == old(block[16 * blockCount..])
  {
    hide S.KeyExpansion, S.DecryptedBlock, Spliced;
    var w := new byte[240];
    MakeKeySchedule(key, w);
    var prevBlock := new byte[16];
    CopyBlock(iv, 0, prevBlock);
    assert prevBlock[..] == iv[..];
    ghost var schedule: S.Schedule, end := w[..], 16 * blockCount;
    ghost var result := S.CbcDecrypt(schedule, prevBlock[..], block[..end]);
    for i := 0 to blockCount
      invariant w[..] == schedule
      invariant result == block[..16 * i] + S.CbcDecrypt(schedule, prevBlock[..], block[16 * i..end])
      invariant block[end..] == old(block[end..])
    {
      var current := 16 * i;
      var original := new byte[16];
      CopyBlock(block, current, original);
      ghost var before, c: S.Block, chain: S.Block := block[..], original[..], prevBlock[..];
      assert block[current..current + 16] == c;
      DecryptBlock(w, block, current, prevBlock);
      ghost var p: S.Block := S.DecryptedBlock(schedule, c, chain);
      ghost var rest := S.CbcDecrypt(schedule, c, before[current..end][16..]);
      OneBlockDone(before, block[..], p, rest, current, end);
      assert |before[current..end]| >= 16 && before[current..end][..S.BLOCK_BYTES] == c;
      assert S.CbcDecrypt(schedule, chain, before[current..end]) == p + rest;
      assert original[0..16] == original[..];
      CopyBlock(original, 0, prevBlock);
    }
    assert block[end..end] == [];
    NoBlocks(schedule, prevBlock[..]);
  }
}

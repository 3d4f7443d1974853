/** Padding, encryption and decryption of buffers and strings: src/base/encryptor.cc. */
module Encryptor {
  import opened Wrappers
  import Sha1Spec
  import Sha1
  import S = AesSpec
  import Aes256

  type byte = bv8

  const BLOCK_SIZE: nat := 16

  function GetEncryptedSize(size: nat): nat {
    (size / BLOCK_SIZE + 1) * BLOCK_SIZE
  }

  /** The encrypted size is the least multiple of the block size above the size. */
  lemma EncryptedSizeIsNextMultiple(size: nat, n: nat)
    ensures GetEncryptedSize(size) % BLOCK_SIZE == 0 && size < GetEncryptedSize(size) <= size + BLOCK_SIZE
    ensures size < BLOCK_SIZE * n ==> GetEncryptedSize(size) <= BLOCK_SIZE * n
  {}

  // Padding, section 6.3 of RFC 5652; the program calls it PKCS#5.

  function Padding(n: nat): seq<byte>
    requires n <= BLOCK_SIZE
  {
    seq(n, _ => n as byte)
  }

  function Pad(plain: seq<byte>): (padded: seq<byte>)
    ensures |padded| == GetEncryptedSize(|plain|)
  {
    plain + Padding(GetEncryptedSize(|plain|) - |plain|)
  }

  /** What the program makes of decrypted blocks: nothing unless the text before the padding is not empty. */
  function Unpad(data: seq<byte>): Option<seq<byte>>
    requires data != []
  {
    var last := data[|data| - 1];
    var n := last as nat;
    if last == 0 || n > BLOCK_SIZE || |data| <= n || (exists i | |data| - n <= i < |data| :: data[i] != last) then
      None
    else
      Some(data[..|data| - n])
  }

  lemma PaddingValue(n: nat)
    requires 1 <= n <= BLOCK_SIZE
    ensures (n as byte) as nat == n && n as byte != 0
  {}

  /** Byte by byte: the text, then the number of missing bytes as often as it says, at least once. */
  lemma PaddedBytes(plain: seq<byte>, i: nat)
    requires i < |Pad(plain)|
    ensures |Pad(plain)| == |plain| + (16 - |plain| % 16)
    ensures Pad(plain)[i] == if i < |plain| then plain[i] else (16 - |plain| % 16) as byte
  {
    assert GetEncryptedSize(|plain|) - |plain| == 16 - |plain| % 16;
  }

  lemma UnpadOfPad(plain: seq<byte>)
    requires plain != []
    ensures Unpad(Pad(plain)) == Some(plain)
  {
    PaddingValue(GetEncryptedSize(|plain|) - |plain|);
  }

  lemma PadOfUnpad(data: seq<byte>)
    requires data != [] && |data| % BLOCK_SIZE == 0 && Unpad(data).Some?
    ensures Unpad(data).value != [] && Pad(Unpad(data).value) == data
  {
    var plain := Unpad(data).value;
    var last := data[|data| - 1];
    var n := last as nat;
    ByteOfItsValue(last);
    EncryptedSizeOfPrefix(|data|, n);
    assert data == plain + data[|plain|..];
    assert data[|plain|..] == Padding(n);
  }

  lemma ByteOfItsValue(b: byte)
    ensures b as nat as byte == b
  {}

  lemma EncryptedSizeOfPrefix(size: nat, n: nat)
    requires size % BLOCK_SIZE == 0 && 1 <= n <= BLOCK_SIZE && n < size
    ensures GetEncryptedSize(size - n) == size
  {}

  // Strings as values.

  function Encrypted(key: S.Key, iv: S.Block, plain: seq<byte>): seq<byte> {
    S.CbcEncrypt(S.KeyExpansion(key), iv, Pad(plain))
  }

  function Decrypted(key: S.Key, iv: S.Block, cipher: seq<byte>): Option<seq<byte>> {
    if cipher == [] || |cipher| % BLOCK_SIZE != 0 then None
    else Unpad(S.CbcDecrypt(S.KeyExpansion(key), iv, cipher))
  }

  /** Decryption gives back every non-empty string. */
  lemma DecryptedEncrypted(key: S.Key, iv: S.Block, plain: seq<byte>)
    requires plain != []
    ensures |Encrypted(key, iv, plain)| == GetEncryptedSize(|plain|)
    ensures Decrypted(key, iv, Encrypted(key, iv, plain)) == Some(plain)
  {
    hide S.KeyExpansion, S.CbcEncrypt, S.CbcDecrypt, Pad, Unpad;
    S.CbcDecryptsEncrypted(S.KeyExpansion(key), iv, Pad(plain));
    UnpadOfPad(plain);
  }

  /** Encryption gives back every ciphertext that decrypts. */
  lemma EncryptedDecrypted(key: S.Key, iv: S.Block, cipher: seq<byte>)
    requires Decrypted(key, iv, cipher).Some?
    ensures var plain := Decrypted(key, iv, cipher).value;
            plain != [] && Encrypted(key, iv, plain) == cipher
  {
    hide S.KeyExpansion, S.CbcEncrypt, S.CbcDecrypt, Pad, Unpad;
    S.CbcEncryptsDecrypted(S.KeyExpansion(key), iv, cipher);
    PadOfUnpad(S.CbcDecrypt(S.KeyExpansion(key), iv, cipher));
  }

  /** So the ciphertexts that decrypt are exactly the encryptions of non-empty strings. */
  lemma DecryptableIffEncrypted(key: S.Key, iv: S.Block, cipher: seq<byte>)
    ensures Decrypted(key, iv, cipher).Some? <==>
            exists plain :: plain != [] && cipher == Encrypted(key, iv, plain)
  {
    hide Encrypted, Decrypted;
    if Decrypted(key, iv, cipher).Some? {
      EncryptedDecrypted(key, iv, cipher);
    }
    forall plain | plain != [] && cipher == Encrypted(key, iv, plain)
      ensures Decrypted(key, iv, cipher).Some?
    {
      DecryptedEncrypted(key, iv, plain);
    }
  }

  // The key, derived from a password as CryptDeriveKey does with SHA-1.

  /** `fill` 64 times, with the hash exclusive-ored into its first bytes. */
  function Masked(hash: seq<byte>, fill: byte): seq<byte>
    requires |hash| <= 64
  {
    seq(64, i requires 0 <= i < 64 => if i < |hash| then fill ^ hash[i] else fill)
  }

  type Secret = s: seq<byte> | |s| < Sha1Spec.MESSAGE_LIMIT

  function DerivedBytes(secret: Secret): (b: seq<byte>)
    ensures |b| == 40
  {
    var hash := Sha1Spec.Digest(secret);
    Sha1Spec.Digest(Masked(hash, 0x36)) + Sha1Spec.Digest(Masked(hash, 0x5c))
  }

  function DerivedKey(secret: Secret): S.Key {
    DerivedBytes(secret)[..S.KEY_BYTES]
  }

  /** The two masked buffers byte by byte: first 36, then 5c; the key is the first 32 of the 40 bytes of their digests. */
  lemma DerivedFromMaskedBuffers(secret: Secret, inner: seq<byte>, outer: seq<byte>)
    requires |inner| == 64 && |outer| == 64
    requires forall i | 0 <= i < 64 :: inner[i] == if i < 20 then 0x36 ^ Sha1Spec.Digest(secret)[i] else 0x36
    requires forall i | 0 <= i < 64 :: outer[i] == if i < 20 then 0x5c ^ Sha1Spec.Digest(secret)[i] else 0x5c
    ensures DerivedBytes(secret) == Sha1Spec.Digest(inner) + Sha1Spec.Digest(outer)
    ensures DerivedKey(secret) == Sha1Spec.Digest(inner) + Sha1Spec.Digest(outer)[..12]
  {
    hide Sha1Spec.Digest;
    var hash := Sha1Spec.Digest(secret);
    assert Masked(hash, 0x36) == inner && Masked(hash, 0x5c) == outer;
  }

  method GetMSCryptDeriveKeyWithSHA1(password: seq<byte>, salt: seq<byte>) returns (derived: seq<byte>)
    requires |password| + |salt| < Sha1Spec.MESSAGE_LIMIT
    ensures derived == DerivedBytes(password + salt)
  {
    hide Sha1Spec.Digest;
    var buf1: seq<byte> := seq(64, _ => 0x36);
    var buf2: seq<byte> := seq(64, _ => 0x5c);
    var hash := Sha1.MakeDigestImpl(password + salt);
    for i := 0 to |hash|
      invariant |buf1| == |buf2| == 64
      invariant forall k | 0 <= k < 64 :: buf1[k] == if k < i then 0x36 ^ hash[k] else 0x36
      invariant forall k | 0 <= k < 64 :: buf2[k] == if k < i then 0x5c ^ hash[k] else 0x5c
    {
      buf1 := buf1[i := buf1[i] ^ hash[i]];
      buf2 := buf2[i := buf2[i] ^ hash[i]];
    }
    assert buf1 == Masked(hash, 0x36) && buf2 == Masked(hash, 0x5c);
    var first := Sha1.MakeDigestImpl(buf1);
    var second := Sha1.MakeDigestImpl(buf2);
    derived := first + second;
  }

  const ZERO_IV: S.Block := [0, 0, 0, 0, 0, 0, 0, 0, 0, 0, 0, 0, 0, 0, 0, 0]

  class Key {
    const key: array<byte>
    const iv: array<byte>
    var isAvailable: bool

    constructor ()
      ensures key.Length == S.KEY_BYTES && iv.Length == S.BLOCK_BYTES && key != iv && fresh(key) && fresh(iv)
      ensures !isAvailable
    {
      key := new byte[32](_ => 0);
      iv := new byte[16](_ => 0);
      isAvailable := false;
    }

    ghost predicate Valid() {
      key.Length == S.KEY_BYTES && iv.Length == S.BLOCK_BYTES && key != iv
    }

    ghost function KeyBytes(): S.Key
      requires Valid()
      reads key
    {
      key[..]
    }

    ghost function IvBytes(): S.Block
      requires Valid()
      reads iv
    {
      iv[..]
    }

    method DeriveFromPassword(password: seq<byte>, salt: seq<byte>, givenIv: array?<byte>) returns (ok: bool)
      requires Valid() && |password| + |salt| < Sha1Spec.MESSAGE_LIMIT
      requires givenIv != null ==> givenIv.Length == S.BLOCK_BYTES && givenIv != iv && givenIv != key
      modifies this, key, iv
      ensures ok <==> !old(isAvailable) && password != []
      ensures ok ==> isAvailable && KeyBytes() == DerivedKey(password + salt)
      ensures ok ==> IvBytes() == if givenIv == null then ZERO_IV else givenIv[..]
      ensures !ok ==> unchanged(this, key, iv)
    {
      hide DerivedBytes;
      if isAvailable || password == [] {
        return false;
      }
      for i := 0 to S.BLOCK_BYTES
        invariant forall k | 0 <= k < i :: iv[k] == if givenIv == null then 0 else givenIv[k]
      {
        iv[i] := if givenIv != null then givenIv[i] else 0;
      }
      var derived := GetMSCryptDeriveKeyWithSHA1(password, salt);
      for i := 0 to S.KEY_BYTES
        invariant forall k | 0 <= k < i :: key[k] == derived[k]
        invariant iv[..] == if givenIv == null then ZERO_IV else givenIv[..]
      {
        key[i] := derived[i];
      }
      assert key[..] == derived[..S.KEY_BYTES];
      isAvailable := true;
      return true;
    }
  }

  // Buffers, in place. The size is the caller's variable, passed in and out.

  method EncryptArray(key: Key, buf: array?<byte>, bufSize: nat) returns (ok: bool, size: nat)
    requires key.Valid() && buf != key.key && buf != key.iv
    requires buf != null ==> GetEncryptedSize(bufSize) <= buf.Length
    modifies buf
    ensures ok <==> key.isAvailable && buf != null && bufSize != 0
    ensures ok ==>
              && size == GetEncryptedSize(bufSize)
              && buf[..size] == Encrypted(key.KeyBytes(), key.IvBytes(), old(buf[..bufSize]))
              && buf[size..] == old(buf[size..])
    ensures !ok ==> size == bufSize && (buf != null ==> unchanged(buf))
  {
    hide S.CbcEncrypt, S.KeyExpansion;
    size := bufSize;
    if !key.isAvailable || buf == null || bufSize == 0 {
      return false, size;
    }
    var encSize := GetEncryptedSize(bufSize);
    var paddingSize := encSize - bufSize;
    var paddingValue := paddingSize as byte;
    for i := bufSize to encSize
      invariant forall k | 0 <= k < buf.Length :: buf[k] == if bufSize <= k < i then paddingValue else old(buf[k])
    {
      buf[i] := paddingValue;
    }
    assert buf[..encSize] == Pad(old(buf[..bufSize]));
    assert buf[encSize..] == old(buf[encSize..]);
    assert 16 * (encSize / BLOCK_SIZE) == encSize;
    Aes256.TransformCBC(key.key, key.iv, buf, encSize / BLOCK_SIZE);
    return true, encSize;
  }

  method DecryptArray(key: Key, buf: array?<byte>, bufSize: nat) returns (ok: bool, size: nat)
    requires key.Valid() && buf != key.key && buf != key.iv
    requires buf != null ==> bufSize <= buf.Length
    modifies buf
    ensures ok <==> key.isAvailable && buf != null && Decrypted(key.KeyBytes(), key.IvBytes(), old(buf[..bufSize])).Some?
    ensures ok ==> size <= bufSize && Decrypted(key.KeyBytes(), key.IvBytes(), old(buf[..bufSize])) == Some(buf[..size])
    ensures !ok ==> size == bufSize
    ensures buf != null && (!key.isAvailable || bufSize == 0 || bufSize % BLOCK_SIZE != 0) ==> unchanged(buf)
    ensures buf != null && key.isAvailable && bufSize > 0 && bufSize % BLOCK_SIZE == 0 ==>
              buf[..bufSize] == S.CbcDecrypt(S.KeyExpansion(key.KeyBytes()), key.IvBytes(), old(buf[..bufSize]))
    ensures buf != null ==> buf[bufSize..] == old(buf[bufSize..])
  {
    hide S.CbcDecrypt, S.KeyExpansion;
    size := bufSize;
    if !key.isAvailable || buf == null || bufSize == 0 {
      return false, size;
    }
    if bufSize < BLOCK_SIZE || bufSize % BLOCK_SIZE != 0 {
      return false, size;
    }
    assert 16 * (bufSize / BLOCK_SIZE) == bufSize;
    Aes256.InverseTransformCBC(key.key, key.iv, buf, bufSize / BLOCK_SIZE);
    ghost var data := buf[..bufSize];
    var paddingValue := buf[bufSize - 1];
    var paddingSize := paddingValue as nat;
    if paddingValue == 0 || paddingSize > BLOCK_SIZE {
      return false, size;
    }
    if bufSize <= paddingSize {
      return false, size;
    }
    for i := bufSize - paddingSize to bufSize
      invariant forall k | bufSize - paddingSize <= k < i :: data[k] == paddingValue
    {
      if buf[i] != paddingValue {
        assert data[i] != paddingValue;
        return false, size;
      }
    }
    assert Unpad(data) == Some(data[..bufSize - paddingSize]);
    assert data[..bufSize - paddingSize] == buf[..bufSize - paddingSize];
    return true, bufSize - paddingSize;
  }

  // Strings, in place.

  /** A std::string: its buffer is replaced when it is resized. */
  class ByteString {
    var data: array<byte>

    constructor (s: seq<byte>)
      ensures data[..] == s && fresh(data)
    {
      data := new byte[|s|](i requires 0 <= i < |s| => s[i]);
      new;
      assert data[..] == s;
    }

    /** Keeps a prefix, or fills up with zero bytes. */
    method Resize(size: nat)
      modifies this
      ensures fresh(data) && data.Length == size
      ensures data[..] ==
              if size <= old(data.Length) then old(data[..size]) else old(data[..]) + Zeros(size - old(data.Length))
    {
      var was := data;
      data := new byte[size](i requires 0 <= i < size reads was => if i < was.Length then was[i] else 0);
    }
  }

  function Zeros(n: nat): seq<byte> { seq(n, _ => 0) }

  method EncryptString(key: Key, data: ByteString?) returns (ok: bool)
    requires key.Valid() && (data != null ==> data.data != key.key && data.data != key.iv)
    modifies data, if data == null then {} else {data.data}
    ensures ok <==> data != null && old(data.data[..]) != [] && key.isAvailable
    ensures ok ==> data.data[..] == Encrypted(key.KeyBytes(), key.IvBytes(), old(data.data[..]))
    ensures !ok && data != null && old(data.data[..]) != [] ==>
              data.data[..] == old(data.data[..]) + Zeros(GetEncryptedSize(old(data.data.Length)) - old(data.data.Length))
  {
    hide Encrypted;
    if data == null || data.data.Length == 0 {
      return false;
    }
    var size := data.data.Length;
    ghost var plain := data.data[..];
    data.Resize(GetEncryptedSize(size));
    assert data.data[..size] == plain;
    ok, size := EncryptArray(key, data.data, size);
  }

  lemma NothingFromNothing(key: S.Key, iv: S.Block)
    ensures Decrypted(key, iv, []).None?
  {}

  method DecryptString(key: Key, data: ByteString?) returns (ok: bool)
    requires key.Valid() && (data != null ==> data.data != key.key && data.data != key.iv)
    modifies data, if data == null then {} else {data.data}
    ensures ok <==> data != null && key.isAvailable && Decrypted(key.KeyBytes(), key.IvBytes(), old(data.data[..])).Some?
    ensures ok ==> Decrypted(key.KeyBytes(), key.IvBytes(), old(data.data[..])) == Some(data.data[..])
    ensures !ok && data != null ==>
              data.data[..] ==
              if key.isAvailable && old(data.data[..]) != [] && old(data.data.Length) % BLOCK_SIZE == 0 then
                S.CbcDecrypt(S.KeyExpansion(key.KeyBytes()), key.IvBytes(), old(data.data[..]))
              else
                old(data.data[..])
  {
    hide Decrypted, S.CbcDecrypt, S.KeyExpansion;
    if data == null || data.data.Length == 0 {
      NothingFromNothing(key.KeyBytes(), key.IvBytes());
      assert data != null ==> data.data[..] == [];
      return false;
    }
    var size := data.data.Length;
    assert data.data[..size] == data.data[..];
    ok, size := DecryptArray(key, data.data, size);
    if !ok {
      return false;
    }
    data.Resize(size);
  }

  // Data protected by a stored password, where the platform offers nothing better. The password and the random
  // salt come from outside.

  const SALT_SIZE: nat := 32

  function Protected(plain: seq<byte>, password: Option<Secret>, salt: seq<byte>): Option<seq<byte>>
    requires |salt| == SALT_SIZE && (password.Some? ==> |password.value| + SALT_SIZE < Sha1Spec.MESSAGE_LIMIT)
  {
    if password.None? || password.value == [] || plain == [] then None
    else Some(salt + Encrypted(DerivedKey(password.value + salt), ZERO_IV, plain))
  }

  function Unprotected(cipher: seq<byte>, password: Option<Secret>): Option<seq<byte>>
    requires password.Some? ==> |password.value| + SALT_SIZE < Sha1Spec.MESSAGE_LIMIT
  {
    if |cipher| < SALT_SIZE || password.None? || password.value == [] then None
    else Decrypted(DerivedKey(password.value + cipher[..SALT_SIZE]), ZERO_IV, cipher[SALT_SIZE..])
  }

  lemma EncryptedParts(key: S.Key, iv: S.Block, plain: seq<byte>, w: S.Schedule, padded: seq<byte>)
    requires w == S.KeyExpansion(key) && padded == Pad(plain) && S.WholeBlocks(padded)
    ensures Encrypted(key, iv, plain) == S.CbcEncrypt(w, iv, padded)
  {}

  /** What is protected: the salt, and the text in a chain from zeros under the key of the password and then the salt. */
  lemma ProtectedParts(plain: seq<byte>, password: Secret, salt: seq<byte>, key: S.Key, iv: S.Block)
    requires |salt| == 32 && |password| + 32 < Sha1Spec.MESSAGE_LIMIT
    requires key == DerivedKey(password + salt) && forall i | 0 <= i < 16 :: iv[i] == 0
    ensures Protected(plain, None, salt) == None
    ensures Protected(plain, Some(password), salt) ==
            if password == [] || plain == [] then None else Some(salt + Encrypted(key, iv, plain))
  {
    hide Encrypted, DerivedKey;
    assert iv == ZERO_IV;
  }

  /** Under an unchanged password, whatever could be protected is recovered, and whatever is recovered was protected. */
  lemma ProtectedRoundTrip(text: seq<byte>, password: Option<Secret>, salt: seq<byte>)
    requires |salt| == SALT_SIZE && (password.Some? ==> |password.value| + SALT_SIZE < Sha1Spec.MESSAGE_LIMIT)
    ensures Protected(text, password, salt).Some? ==>
              Unprotected(Protected(text, password, salt).value, password) == Some(text)
    ensures salt <= text && Unprotected(text, password).Some? ==>
              Protected(Unprotected(text, password).value, password, salt) == Some(text)
  {
    hide Encrypted, Decrypted, DerivedBytes, DerivedKey;
    if Protected(text, password, salt).Some? {
      var key := DerivedKey(password.value + salt);
      var cipher := Protected(text, password, salt).value;
      assert cipher[..SALT_SIZE] == salt && cipher[SALT_SIZE..] == Encrypted(key, ZERO_IV, text);
      DecryptedEncrypted(key, ZERO_IV, text);
    }
    if salt <= text && Unprotected(text, password).Some? {
      assert text[..SALT_SIZE] == salt && text == salt + text[SALT_SIZE..];
      EncryptedDecrypted(DerivedKey(password.value + salt), ZERO_IV, text[SALT_SIZE..]);
    }
  }

  method ProtectData(plainText: seq<byte>, password: Option<Secret>, salt: seq<byte>)
    returns (ok: bool, cipherText: seq<byte>)
    requires |salt| == SALT_SIZE && (password.Some? ==> |password.value| + SALT_SIZE < Sha1Spec.MESSAGE_LIMIT)
    ensures ok <==> Protected(plainText, password, salt).Some?
    ensures ok ==> Protected(plainText, password, salt) == Some(cipherText)
  {
    hide Encrypted, DerivedBytes, DerivedKey;
    cipherText := [];
    if password.None? {
      return false, cipherText;
    }
    var key := new Key();
    ok := key.DeriveFromPassword(password.value, salt, null);
    if !ok {
      return false, cipherText;
    }
    var buf := new ByteString(plainText);
    ok := EncryptString(key, buf);
    if !ok {
      return false, cipherText;
    }
    cipherText := salt + buf.data[..];
  }

  method UnprotectData(cipherText: seq<byte>, password: Option<Secret>) returns (ok: bool, plainText: seq<byte>)
    requires password.Some? ==> |password.value| + SALT_SIZE < Sha1Spec.MESSAGE_LIMIT
    ensures ok <==> Unprotected(cipherText, password).Some?
    ensures ok ==> Unprotected(cipherText, password) == Some(plainText)
  {
    hide Decrypted, DerivedBytes, DerivedKey;
    plainText := [];
    if |cipherText| < SALT_SIZE || password.None? {
      return false, plainText;
    }
    var salt := cipherText[..SALT_SIZE];
    var key := new Key();
    ok := key.DeriveFromPassword(password.value, salt, null);
    if !ok {
      return false, plainText;
    }
    var buf := new ByteString(cipherText[SALT_SIZE..]);
    ok := DecryptString(key, buf);
    plainText := if ok then buf.data[..] else [];
  }
}
